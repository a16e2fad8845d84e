/**
 * The four vote maps of a machine, read as one book. However votes move between the buffers and
 * the current tables (timeouts, skips, proposals for later rounds), the machine always knows
 * exactly the first vote it accepted from each voter in each round from the current one on.
 */
module VoteBook {
  import opened Basics
  import opened Votes
  import opened Machine
  import opened Reaction

  datatype Slot = Slot(ty: VoteType, round: u32, voter: Address)

  /** First accepted vote per slot, over the whole height. */
  type Book = map<Slot, Vote>

  function SlotOf(v: Vote): Slot {
    Slot(v.voteType, v.round, v.voter)
  }

  function CurrentTable(m: Machine, ty: VoteType): Table {
    if ty.Prevote? then m.prevotes else m.precommits
  }

  function Buffers(m: Machine, ty: VoteType): map<u32, Table> {
    if ty.Prevote? then m.futurePrevotes else m.futurePrecommits
  }

  /** Where a machine would look for a vote. */
  function TableAt(m: Machine, ty: VoteType, round: u32): Table {
    if round < m.round then map[]
    else if round == m.round then CurrentTable(m, ty)
    else Buffered(Buffers(m, ty), round)
  }

  /** A vote the handlers do not turn away for its height, its sender or its round. */
  predicate Admissible(m: Machine, v: Vote) {
    v.height == m.height && m.validatorSet.Contains(v.voter) && v.round >= m.round
  }

  /** The abstract handler: file the vote in its slot unless the slot is taken. */
  function Record(book: Book, m: Machine, e: Event): Book {
    if e.VoteArrives? && Admissible(m, e.v) && SlotOf(e.v) !in book then book[SlotOf(e.v) := e.v] else book
  }

  /** The machine and the book agree on one slot. */
  predicate SlotAgrees(m: Machine, book: Book, ty: VoteType, round: u32, a: Address) {
    && (a in TableAt(m, ty, round) <==> Slot(ty, round, a) in book)
    && (a in TableAt(m, ty, round) ==> TableAt(m, ty, round)[a] == book[Slot(ty, round, a)])
  }

  /** The machine's tables are the book, restricted to rounds from the current one on. */
  ghost predicate Refines(m: Machine, book: Book) {
    forall ty, round: u32, a :: round >= m.round ==> SlotAgrees(m, book, ty, round, a)
  }

  lemma EnterRoundTable(m: Machine, target: u32, ty: VoteType, round: u32)
    requires m.round < target <= round
    ensures TableAt(EnterRound(m, target), ty, round) == TableAt(m, ty, round)
  {
  }

  /** Entering a later round changes where votes are kept, not which votes are known. */
  lemma EnterRoundKeepsBook(m: Machine, target: u32, book: Book)
    requires Refines(m, book) && target > m.round
    ensures Refines(EnterRound(m, target), book)
  {
    var m' := EnterRound(m, target);
    forall ty, round: u32, a | round >= target ensures SlotAgrees(m', book, ty, round, a) {
      EnterRoundTable(m, target, ty, round);
      assert SlotAgrees(m, book, ty, round, a);
    }
  }

  /** Putting an admissible vote into its free slot. */
  ghost function FileVote(m: Machine, v: Vote): Machine {
    if v.round == m.round then
      if v.voteType.Prevote? then m.(prevotes := m.prevotes[v.voter := v])
      else m.(precommits := m.precommits[v.voter := v])
    else if v.voteType.Prevote? then
      m.(futurePrevotes := m.futurePrevotes[v.round := Buffered(m.futurePrevotes, v.round)[v.voter := v]])
    else
      m.(futurePrecommits := m.futurePrecommits[v.round := Buffered(m.futurePrecommits, v.round)[v.voter := v]])
  }

  lemma FiledTable(m: Machine, v: Vote, ty: VoteType, round: u32)
    requires v.round >= m.round && round >= m.round
    ensures TableAt(FileVote(m, v), ty, round) ==
            if ty == v.voteType && round == v.round then TableAt(m, ty, round)[v.voter := v] else TableAt(m, ty, round)
  {
  }

  lemma FiledKeepsBook(m: Machine, v: Vote, book: Book)
    requires Refines(m, book) && v.round >= m.round && SlotOf(v) !in book
    ensures Refines(FileVote(m, v), book[SlotOf(v) := v])
  {
    var m', book' := FileVote(m, v), book[SlotOf(v) := v];
    forall ty, round: u32, a | round >= m.round ensures SlotAgrees(m', book', ty, round, a) {
      FiledTable(m, v, ty, round);
      assert SlotAgrees(m, book, ty, round, a);
    }
  }

  /** The handlers turn a vote away as a duplicate exactly when its slot is taken, wherever it is kept. */
  lemma DuplicateExactly(m: Machine, v: Vote, book: Book)
    requires Refines(m, book) && Admissible(m, v)
    ensures SlotOf(v) in book <==>
            (if v.voteType.Prevote? then OnPrevote(m, v).1 else OnPrecommit(m, v).1) == Err(DuplicateVoteError)
  {
    assert SlotAgrees(m, book, v.voteType, v.round, v.voter);
  }

  /** A machine that differs only in step, lock and proposal keeps the same votes. */
  predicate SameVotes(m: Machine, m': Machine) {
    && m'.round == m.round && m'.height == m.height && m'.validatorSet == m.validatorSet
    && m'.prevotes == m.prevotes && m'.precommits == m.precommits
    && m'.futurePrevotes == m.futurePrevotes && m'.futurePrecommits == m.futurePrecommits
  }

  lemma SameVotesReflexive(m: Machine)
    ensures SameVotes(m, m)
  {
  }

  /** What a vote does to the tables: nothing, or it is filed, and then possibly its round is entered. */
  lemma VoteEffect(m: Machine, v: Vote)
    ensures var m' := React(m, VoteArrives(v)).0;
            || (!(Admissible(m, v) && v.voter !in TableAt(m, v.voteType, v.round)) && m' == m)
            || (Admissible(m, v) && v.voter !in TableAt(m, v.voteType, v.round)
                && (SameVotes(FileVote(m, v), m') || (v.round > m.round && m' == EnterRound(FileVote(m, v), v.round))))
  {
    if v.voteType.Prevote? {
      PrevoteEffect(m, v);
    } else {
      PrecommitEffect(m, v);
    }
  }

  lemma TallyPrevotesEffect(m: Machine)
    ensures SameVotes(m, TallyPrevotes(m).0)
  {
  }

  lemma PrevoteEffect(m: Machine, v: Vote)
    requires v.voteType.Prevote?
    ensures var m' := OnPrevote(m, v).0;
            || (!(Admissible(m, v) && v.voter !in TableAt(m, Prevote, v.round)) && m' == m)
            || (Admissible(m, v) && v.voter !in TableAt(m, Prevote, v.round)
                && (SameVotes(FileVote(m, v), m') || (v.round > m.round && m' == EnterRound(FileVote(m, v), v.round))))
  {
    TallyPrevotesEffect(FileVote(m, v));
    hide ShouldSkip, EnterRound, TallyPrevotes, SameVotes;
    SameVotesReflexive(FileVote(m, v));
  }

  lemma TallyPrecommitsEffect(m: Machine)
    ensures SameVotes(m, TallyPrecommits(m).0)
  {
  }

  lemma PrecommitEffect(m: Machine, v: Vote)
    requires v.voteType.Precommit?
    ensures var m' := OnPrecommit(m, v).0;
            || (!(Admissible(m, v) && v.voter !in TableAt(m, Precommit, v.round)) && m' == m)
            || (Admissible(m, v) && v.voter !in TableAt(m, Precommit, v.round)
                && (SameVotes(FileVote(m, v), m') || (v.round > m.round && m' == EnterRound(FileVote(m, v), v.round))))
  {
    TallyPrecommitsEffect(FileVote(m, v));
    hide ShouldSkip, EnterRound, TallyPrecommits, SameVotes;
    SameVotesReflexive(FileVote(m, v));
  }

  lemma SameVotesSameBook(m: Machine, m': Machine, book: Book)
    requires Refines(m, book) && SameVotes(m, m')
    ensures Refines(m', book)
  {
    forall ty, round: u32, a | round >= m.round ensures SlotAgrees(m', book, ty, round, a) {
      assert SlotAgrees(m, book, ty, round, a);
    }
  }

  lemma VoteKeepsBook(m: Machine, v: Vote, book: Book)
    requires Refines(m, book)
    ensures Refines(React(m, VoteArrives(v)).0, Record(book, m, VoteArrives(v)))
  {
    VoteEffect(m, v);
    var m' := React(m, VoteArrives(v)).0;
    if Admissible(m, v) {
      assert SlotAgrees(m, book, v.voteType, v.round, v.voter);
      if SlotOf(v) !in book {
        FiledKeepsBook(m, v, book);
        if SameVotes(FileVote(m, v), m') {
          SameVotesSameBook(FileVote(m, v), m', book[SlotOf(v) := v]);
        } else {
          EnterRoundKeepsBook(FileVote(m, v), v.round, book[SlotOf(v) := v]);
        }
      }
    }
  }

  lemma ProposalKeepsBook(m: Machine, p: Proposal, book: Book)
    requires Refines(m, book) && ProposalDefined(m, p)
    ensures Refines(OnProposal(m, p).0, book)
  {
    if p.height == m.height && p.round > m.round {
      EnterRoundKeepsBook(m, p.round, book);
      SameVotesSameBook(EnterRound(m, p.round), OnProposal(m, p).0, book);
    } else {
      SameVotesSameBook(m, OnProposal(m, p).0, book);
    }
  }

  lemma TimerKeepsBook(m: Machine, book: Book)
    requires Refines(m, book) && !Wraps(m, TimerFires)
    ensures Refines(OnTimeout(m).0, book)
  {
    if m.step.PrecommitStep? {
      EnterRoundKeepsBook(m, m.round + 1, book);
    } else {
      SameVotesSameBook(m, OnTimeout(m).0, book);
    }
  }

  /** Every event but a saturated round increment refines the abstract handler. */
  lemma ReactKeepsBook(m: Machine, e: Event, book: Book)
    requires Refines(m, book) && Defined(m, e) && !Wraps(m, e) && !e.HeightAdvances?
    ensures Refines(React(m, e).0, Record(book, m, e))
  {
    match e
    case ProposalArrives(p) => ProposalKeepsBook(m, p, book);
    case VoteArrives(v) => VoteKeepsBook(m, v, book);
    case TimerFires => TimerKeepsBook(m, book);
    case BeginPropose => SameVotesSameBook(m, React(m, e).0, book);
  }

  /** The saturated increment forgets the votes of the round it re-enters: it is harmless only if there were none. */
  lemma WrapForgets(m: Machine, book: Book)
    requires WellFormed(m) && Refines(m, book) && Wraps(m, TimerFires)
    ensures Refines(OnTimeout(m).0, book) <==> m.prevotes == map[] && m.precommits == map[]
  {
    var m' := OnTimeout(m).0;
    assert m.futurePrevotes == map[] && m.futurePrecommits == map[];
    assert m'.prevotes == map[] && m'.precommits == map[];
    if Refines(m', book) {
      forall a ensures a !in m.prevotes && a !in m.precommits {
        assert SlotAgrees(m, book, Prevote, m.round, a) && SlotAgrees(m, book, Precommit, m.round, a);
        assert SlotAgrees(m', book, Prevote, m.round, a) && SlotAgrees(m', book, Precommit, m.round, a);
      }
    }
    if m.prevotes == map[] && m.precommits == map[] {
      SameVotesSameBook(m, m', book);
    }
  }

  // ---------------------------------------------------------------------
  // Any sequence of events at a height
  // ---------------------------------------------------------------------

  /** `ms` is the history of a machine through `es`, from the start of a height. */
  ghost predicate History(ms: seq<Machine>, es: seq<Event>) {
    && |ms| == |es| + 1
    && ms[0] == New(ms[0].height, ms[0].validatorSet, ms[0].localAddress)
    && forall i :: 0 <= i < |es| ==>
         && Defined(ms[i], es[i]) && !Wraps(ms[i], es[i]) && !es[i].HeightAdvances?
         && ms[i + 1] == React(ms[i], es[i]).0
  }

  ghost function BookOf(ms: seq<Machine>, es: seq<Event>): Book
    requires |ms| >= |es|
  {
    if es == [] then map[] else Record(BookOf(ms, es[..|es| - 1]), ms[|es| - 1], es[|es| - 1])
  }

  /** After any sequence of events the four maps are the book of first accepted votes. */
  lemma {:induction false} BookTheorem(ms: seq<Machine>, es: seq<Event>)
    requires History(ms, es)
    ensures Refines(ms[|es|], BookOf(ms, es))
  {
    if es == [] {
    } else {
      var k := |es| - 1;
      var es' := es[..k];
      BookPrefix(ms, ms[..k + 1], es');
      BookTheorem(ms[..k + 1], es');
      ReactKeepsBook(ms[k], es[k], BookOf(ms, es'));
    }
  }

  lemma {:induction false} BookPrefix(ms: seq<Machine>, ms': seq<Machine>, es: seq<Event>)
    requires |es| <= |ms'| <= |ms| && ms' == ms[..|ms'|]
    ensures BookOf(ms, es) == BookOf(ms', es)
  {
    if es == [] {
    } else {
      BookPrefix(ms, ms', es[..|es| - 1]);
    }
  }

  /** The book holds the first vote filed in each slot: an entry never changes once made. */
  lemma {:induction false} FirstVoteStays(ms: seq<Machine>, es: seq<Event>, k: nat)
    requires |ms| >= |es| && k <= |es|
    ensures forall s :: s in BookOf(ms, es[..k]) ==> s in BookOf(ms, es) && BookOf(ms, es)[s] == BookOf(ms, es[..k])[s]
  {
    if k < |es| {
      var es' := es[..|es| - 1];
      assert es'[..k] == es[..k];
      FirstVoteStays(ms, es', k);
    } else {
      assert es[..k] == es;
    }
  }
}

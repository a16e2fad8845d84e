/** Counting the stake behind each block hash in a table of votes. */
module QuorumScan {
  import opened Basics
  import opened Validators
  import opened Votes

  /** Voters in the table backing `h`. */
  function VotersFor(votes: map<Address, Vote>, h: Hash): set<Address> {
    set a | a in votes && votes[a].blockHash == h
  }

  /** `has_prevote_quorum` and `has_precommit_quorum`. */
  predicate HasQuorum(vs: ValidatorSet, votes: map<Address, Vote>, h: Hash) {
    vs.IsQuorum(VotersFor(votes, h))
  }

  /** At most one hash can have a quorum, since a voter appears in the table once. */
  lemma QuorumUnique(vs: ValidatorSet, votes: map<Address, Vote>, h1: Hash, h2: Hash)
    requires vs.Valid()
    requires HasQuorum(vs, votes, h1) && HasQuorum(vs, votes, h2)
    ensures h1 == h2
  {
    if h1 != h2 {
      assert VotersFor(votes, h1) * VotersFor(votes, h2) == {};
      QuorumOverlap(vs, VotersFor(votes, h1), VotersFor(votes, h2));
      PowerEmpty(vs.validators);
    }
  }

  /** The hash with a quorum, if any. */
  ghost function QuorumHash(vs: ValidatorSet, votes: map<Address, Vote>): (r: Option<Hash>)
    ensures r.Some? ==> HasQuorum(vs, votes, r.value)
    ensures r.None? ==> forall h :: !HasQuorum(vs, votes, h)
  {
    if h :| HasQuorum(vs, votes, h) then Some(h) else None
  }

  /** Every table entry is filed under its own voter. */
  predicate KeyedByVoter(votes: map<Address, Vote>) {
    forall a :: a in votes ==> votes[a].voter == a
  }

  /**
   * `find_prevote_quorum` and `find_precommit_quorum`: one pass over the table, in whatever
   * order the hash map yields its entries, that stops at the first tally reaching the threshold.
   */
  method FindQuorum(vs: ValidatorSet, votes: map<Address, Vote>) returns (r: Option<Hash>)
    requires vs.Valid() && KeyedByVoter(votes)
    ensures r == QuorumHash(vs, votes)
    ensures forall h :: r == Some(h) <==> HasQuorum(vs, votes, h)
  {
    var threshold := vs.QuorumThreshold();
    var tally: map<Hash, u64> := map[];
    var todo := votes.Keys;
    ghost var done: set<Address> := {};
    PowerEmpty(vs.validators);
    assert forall h :: VotersFor(votes, h) * done == {};
    while todo != {}
      invariant done == votes.Keys - todo && todo <= votes.Keys
      invariant forall h :: (if h in tally then tally[h] else 0) == vs.PowerOf(VotersFor(votes, h) * done)
      invariant forall h :: vs.PowerOf(VotersFor(votes, h) * done) < threshold
      decreases todo
    {
      var a :| a in todo;
      var vote := votes[a];
      var stake := vs.GetStake(vote.voter);
      var entry := if vote.blockHash in tally then tally[vote.blockHash] else 0;
      ghost var next := done + {a};
      TallyStep(vs, votes, done, a);
      entry := SatAdd(entry, stake);
      tally := tally[vote.blockHash := entry];
      if entry >= threshold {
        PowerMonotone(vs.validators, VotersFor(votes, vote.blockHash) * next, VotersFor(votes, vote.blockHash));
        r := Some(vote.blockHash);
        assert HasQuorum(vs, votes, vote.blockHash);
        forall h | HasQuorum(vs, votes, h) ensures h == vote.blockHash {
          QuorumUnique(vs, votes, h, vote.blockHash);
        }
        return;
      }
      todo := todo - {a};
      done := next;
    }
    assert forall h :: VotersFor(votes, h) * done == VotersFor(votes, h);
    r := None;
  }

  /** Visiting one more voter moves only the tally of the hash it voted for, by exactly its stake. */
  lemma TallyStep(vs: ValidatorSet, votes: map<Address, Vote>, done: set<Address>, a: Address)
    requires vs.Valid() && a in votes && a !in done
    ensures forall h :: vs.PowerOf(VotersFor(votes, h) * (done + {a})) ==
                        vs.PowerOf(VotersFor(votes, h) * done) + (if h == votes[a].blockHash then vs.GetStake(a) else 0)
    ensures vs.PowerOf(VotersFor(votes, votes[a].blockHash) * (done + {a})) <= U64_MAX
  {
    forall h ensures vs.PowerOf(VotersFor(votes, h) * (done + {a})) ==
                     vs.PowerOf(VotersFor(votes, h) * done) + (if h == votes[a].blockHash then vs.GetStake(a) else 0)
    {
      var before := VotersFor(votes, h) * done;
      if h == votes[a].blockHash {
        assert VotersFor(votes, h) * (done + {a}) == before + {a};
        PowerInsert(vs.validators, before, a);
      } else {
        assert VotersFor(votes, h) * (done + {a}) == before;
      }
    }
    PowerAtMostTotal(vs.validators, VotersFor(votes, votes[a].blockHash) * (done + {a}));
  }

  /** The loop of `should_skip_to_round`: stake of a set of distinct voters, summed one by one. */
  method SumStake(vs: ValidatorSet, voters: set<Address>) returns (stake: u64)
    requires vs.Valid()
    ensures stake == vs.PowerOf(voters)
  {
    var todo := voters;
    stake := 0;
    assert voters - todo == {};
    PowerEmpty(vs.validators);
    while todo != {}
      invariant todo <= voters
      invariant stake == vs.PowerOf(voters - todo)
      decreases todo
    {
      var a :| a in todo;
      PowerInsert(vs.validators, voters - todo, a);
      assert voters - (todo - {a}) == (voters - todo) + {a};
      PowerAtMostTotal(vs.validators, voters - (todo - {a}));
      stake := stake + vs.GetStake(a);
      todo := todo - {a};
    }
    assert voters - todo == voters;
  }
}

/** The weighted validator set of `types.rs` and the arithmetic of its quorums. */
module Validators {
  import opened Basics

  datatype ValidatorWeight = ValidatorWeight(address: Address, stake: u64)

  function TotalStake(ws: seq<ValidatorWeight>): nat {
    if ws == [] then 0 else ws[0].stake + TotalStake(ws[1..])
  }

  /** Stake held by the validators whose address is in `who`. */
  function Power(ws: seq<ValidatorWeight>, who: set<Address>): nat {
    if ws == [] then 0
    else (if ws[0].address in who then ws[0].stake else 0) + Power(ws[1..], who)
  }

  function Members(ws: seq<ValidatorWeight>): set<Address> {
    set i | 0 <= i < |ws| :: ws[i].address
  }

  /** `iter().any`. */
  predicate Listed(ws: seq<ValidatorWeight>, a: Address) {
    ws != [] && (ws[0].address == a || Listed(ws[1..], a))
  }

  predicate Distinct(ws: seq<ValidatorWeight>) {
    forall i, j :: 0 <= i < j < |ws| ==> ws[i].address != ws[j].address
  }

  datatype ValidatorSet = ValidatorSet(validators: seq<ValidatorWeight>, totalStake: u64) {

    predicate Valid() {
      Distinct(validators) && totalStake == TotalStake(validators)
    }

    predicate Contains(a: Address) {
      Listed(validators, a)
    }

    function GetStake(a: Address): u64 {
      StakeIn(validators, a)
    }

    function QuorumThreshold(): nat {
      totalStake * 2 / 3 + 1
    }

    function SkipThreshold(): nat {
      totalStake / 3 + 1
    }

    function GetProposer(height: u64, round: u32): (w: ValidatorWeight)
      requires validators != []
      ensures w in validators
    {
      validators[(height + round) % |validators|]
    }

    function PowerOf(who: set<Address>): nat {
      Power(validators, who)
    }

    predicate IsQuorum(who: set<Address>) {
      PowerOf(who) >= QuorumThreshold()
    }

    /** The classical fault assumption: members that are not correct hold less than a third of the stake. */
    predicate FaultBound(correct: set<Address>) {
      3 * PowerOf(Members(validators) - correct) < totalStake
    }
  }

  /** First match wins, as `iter().find` does. */
  function StakeIn(ws: seq<ValidatorWeight>, a: Address): u64 {
    if ws == [] then 0 else if ws[0].address == a then ws[0].stake else StakeIn(ws[1..], a)
  }

  datatype SetError = DuplicateAddress | StakeOverflow

  /** `ValidatorSet::new`; its two panics are the two errors. */
  method NewValidatorSet(ws: seq<ValidatorWeight>) returns (r: Result<ValidatorSet, SetError>)
    ensures r.Ok? <==> Distinct(ws) && TotalStake(ws) <= U64_MAX
    ensures r.Ok? ==> r.value.validators == ws && r.value.Valid()
    ensures r == Err(DuplicateAddress) <==> !Distinct(ws)
  {
    var seen: set<Address> := {};
    for k := 0 to |ws|
      invariant seen == Members(ws[..k])
      invariant Distinct(ws[..k])
    {
      if ws[k].address in seen {
        return Err(DuplicateAddress);
      }
      seen := seen + {ws[k].address};
      assert ws[..k + 1] == ws[..k] + [ws[k]];
    }
    assert ws[..|ws|] == ws;
    var total: nat := 0;
    for k := 0 to |ws|
      invariant total + TotalStake(ws[k..]) == TotalStake(ws)
      invariant total <= U64_MAX
    {
      if total + ws[k].stake > U64_MAX {
        return Err(StakeOverflow);
      }
      total := total + ws[k].stake;
    }
    r := Ok(ValidatorSet(ws, total));
  }

  lemma {:induction false} PowerUnion(ws: seq<ValidatorWeight>, a: set<Address>, b: set<Address>)
    ensures Power(ws, a) + Power(ws, b) == Power(ws, a + b) + Power(ws, a * b)
  {
    if ws == [] {
    } else {
      PowerUnion(ws[1..], a, b);
    }
  }

  lemma {:induction false} PowerMonotone(ws: seq<ValidatorWeight>, a: set<Address>, b: set<Address>)
    requires a <= b
    ensures Power(ws, a) <= Power(ws, b)
  {
    if ws == [] {
    } else {
      PowerMonotone(ws[1..], a, b);
    }
  }

  lemma {:induction false} PowerAtMostTotal(ws: seq<ValidatorWeight>, a: set<Address>)
    ensures Power(ws, a) <= TotalStake(ws)
  {
    if ws == [] {
    } else {
      PowerAtMostTotal(ws[1..], a);
    }
  }

  lemma {:induction false} PowerEmpty(ws: seq<ValidatorWeight>)
    ensures Power(ws, {}) == 0
  {
    if ws == [] {
    } else {
      PowerEmpty(ws[1..]);
    }
  }

  lemma {:induction false} PowerOfStranger(ws: seq<ValidatorWeight>, a: Address)
    requires a !in Members(ws)
    ensures Power(ws, {a}) == 0
  {
    if ws == [] {
    } else {
      assert ws[0].address in Members(ws);
      assert Members(ws[1..]) <= Members(ws) by {
        assert forall i :: 0 <= i < |ws[1..]| ==> ws[1..][i] == ws[i + 1];
      }
      PowerOfStranger(ws[1..], a);
    }
  }

  /** Looking a stake up is the same as weighing the singleton: no address is listed twice. */
  lemma {:induction false} PowerSingleton(ws: seq<ValidatorWeight>, a: Address)
    requires Distinct(ws)
    ensures Power(ws, {a}) == StakeIn(ws, a)
  {
    if ws == [] {
    } else if ws[0].address == a {
      assert a !in Members(ws[1..]) by {
        assert forall i :: 0 <= i < |ws[1..]| ==> ws[1..][i] == ws[i + 1];
      }
      PowerOfStranger(ws[1..], a);
    } else {
      PowerSingleton(ws[1..], a);
    }
  }

  /** Adding one new voter adds exactly the stake the lookup returns. */
  lemma PowerInsert(ws: seq<ValidatorWeight>, who: set<Address>, a: Address)
    requires Distinct(ws)
    requires a !in who
    ensures Power(ws, who + {a}) == Power(ws, who) + StakeIn(ws, a)
  {
    PowerUnion(ws, who, {a});
    assert who * {a} == {};
    PowerEmpty(ws);
    PowerSingleton(ws, a);
  }

  /** Members outside `who` weigh nothing: only the members of a set of voters count. */
  lemma {:induction false} PowerPositiveHasMember(ws: seq<ValidatorWeight>, who: set<Address>) returns (a: Address)
    requires Power(ws, who) > 0
    ensures a in who && a in Members(ws)
  {
    if ws[0].address in who {
      a := ws[0].address;
    } else {
      a := PowerPositiveHasMember(ws[1..], who);
      var i :| 0 <= i < |ws[1..]| && ws[1..][i].address == a;
      assert ws[i + 1].address == a;
    }
  }

  lemma {:induction false} ListedAt(ws: seq<ValidatorWeight>, i: nat)
    requires i < |ws|
    ensures Listed(ws, ws[i].address)
  {
    if i == 0 {
    } else {
      ListedAt(ws[1..], i - 1);
    }
  }

  /** The scan for an address finds the members and nobody else. */
  lemma {:induction false} ListedExactly(ws: seq<ValidatorWeight>, a: Address)
    ensures Listed(ws, a) <==> a in Members(ws)
  {
    if a in Members(ws) {
      var i :| 0 <= i < |ws| && ws[i].address == a;
      ListedAt(ws, i);
    }
    if Listed(ws, a) && ws[0].address != a {
      ListedExactly(ws[1..], a);
      var i :| 0 <= i < |ws[1..]| && ws[1..][i].address == a;
      assert ws[i + 1].address == a;
    }
  }

  /** A quorum is more than two thirds of all stake. */
  lemma QuorumExactly(vs: ValidatorSet, who: set<Address>)
    ensures vs.IsQuorum(who) <==> 3 * vs.PowerOf(who) > 2 * vs.totalStake
  {
    var q := vs.totalStake * 2 / 3;
    assert 3 * q <= vs.totalStake * 2 < 3 * (q + 1);
  }

  /** Two quorums overlap in more than a third of all stake. */
  lemma QuorumOverlap(vs: ValidatorSet, a: set<Address>, b: set<Address>)
    requires vs.Valid()
    requires vs.IsQuorum(a) && vs.IsQuorum(b)
    ensures 3 * vs.PowerOf(a * b) > vs.totalStake
  {
    PowerUnion(vs.validators, a, b);
    PowerAtMostTotal(vs.validators, a + b);
  }

  /** A set heavier than the faulty members contains a correct one. */
  lemma HeavierThanFaulty(vs: ValidatorSet, who: set<Address>, correct: set<Address>) returns (p: Address)
    requires vs.PowerOf(who) > vs.PowerOf(Members(vs.validators) - correct)
    ensures p in who && p in correct
  {
    var honest, rest := who * correct, who - correct;
    PowerUnion(vs.validators, honest, rest);
    assert honest + rest == who && honest * rest == {};
    PowerEmpty(vs.validators);
    if vs.PowerOf(honest) > 0 {
      p := PowerPositiveHasMember(vs.validators, honest);
    } else {
      PowerOfMembers(vs.validators, rest, Members(vs.validators));
      PowerMonotone(vs.validators, rest * Members(vs.validators), Members(vs.validators) - correct);
      assert false;
    }
  }

  /** Only members weigh anything. */
  lemma {:induction false} PowerOfMembers(ws: seq<ValidatorWeight>, who: set<Address>, all: set<Address>)
    requires Members(ws) <= all
    ensures Power(ws, who) == Power(ws, who * all)
  {
    if ws == [] {
    } else {
      assert ws[0].address in Members(ws);
      assert Members(ws[1..]) <= Members(ws) by {
        assert forall i :: 0 <= i < |ws[1..]| ==> ws[1..][i] == ws[i + 1];
      }
      PowerOfMembers(ws[1..], who, all);
    }
  }

  /** Under the fault bound any two quorums share a correct member. */
  lemma QuorumsShareCorrect(vs: ValidatorSet, a: set<Address>, b: set<Address>, correct: set<Address>)
      returns (p: Address)
    requires vs.Valid() && vs.FaultBound(correct)
    requires vs.IsQuorum(a) && vs.IsQuorum(b)
    ensures p in a && p in b && p in correct
  {
    QuorumOverlap(vs, a, b);
    p := HeavierThanFaulty(vs, a * b, correct);
  }

  /** Under the fault bound a skip threshold, and hence a quorum, contains a correct member. */
  lemma SkipThresholdHasCorrect(vs: ValidatorSet, a: set<Address>, correct: set<Address>) returns (p: Address)
    requires vs.Valid() && vs.FaultBound(correct)
    requires vs.PowerOf(a) >= vs.SkipThreshold()
    ensures p in a && p in correct
  {
    p := HeavierThanFaulty(vs, a, correct);
  }

  // ---------------------------------------------------------------------
  // Proposer rotation
  // ---------------------------------------------------------------------

  /** Two rounds of a height have one proposer exactly when they lie a multiple of the set's size apart. */
  lemma ProposerRepeatsExactly(vs: ValidatorSet, height: u64, r1: u32, r2: u32)
    requires vs.Valid() && vs.validators != []
    ensures vs.GetProposer(height, r1) == vs.GetProposer(height, r2) <==> (r1 - r2) % |vs.validators| == 0
  {
    var n, i, j := |vs.validators|, (height + r1) % |vs.validators|, (height + r2) % |vs.validators|;
    assert i != j ==> vs.validators[i].address != vs.validators[j].address;
    SameRemainder(height + r1, height + r2, n);
  }

  lemma SameRemainder(x: int, y: int, n: nat)
    requires n > 0
    ensures x % n == y % n <==> (x - y) % n == 0
  {
    var a, b := x / n, y / n;
    assert x == a * n + x % n && y == b * n + y % n;
    assert x - y == (a - b) * n + (x % n - y % n);
    if x % n == y % n {
      RemainderOf(a - b, 0, n);
    } else if x % n > y % n {
      RemainderOf(a - b, x % n - y % n, n);
    } else {
      assert x - y == (a - b - 1) * n + (n + x % n - y % n);
      RemainderOf(a - b - 1, n + x % n - y % n, n);
    }
  }

  lemma MultipleNotSmall(d: int, n: int)
    requires d != 0 && n >= 0
    ensures d * n >= n || d * n <= -n
  {
  }

  lemma RemainderOf(q: int, r: nat, n: nat)
    requires r < n
    ensures (q * n + r) % n == r
  {
    var x := q * n + r;
    assert x == (x / n) * n + x % n;
    assert (x / n - q) * n == r - x % n;
    if x / n != q {
      MultipleNotSmall(x / n - q, n);
    }
  }

  /** The turn passes with the height as it does with the round. */
  lemma ProposerFollowsHeight(vs: ValidatorSet, height: u64, round: u32)
    requires vs.validators != [] && height < U64_MAX && round < U32_MAX
    ensures vs.GetProposer(height + 1, round) == vs.GetProposer(height, round + 1)
    ensures vs.GetProposer(0, 0) == vs.validators[0]
  {
  }

  /** Any stretch of as many rounds as there are validators gives each of them a turn. */
  lemma EveryValidatorProposes(vs: ValidatorSet, height: u64, start: u32, i: nat) returns (round: u32)
    requires vs.validators != [] && i < |vs.validators| && start + |vs.validators| - 1 <= U32_MAX
    ensures start <= round < start + |vs.validators| && vs.GetProposer(height, round) == vs.validators[i]
  {
    var n := |vs.validators|;
    var at := (height + start) % n;
    var q := (height + start) / n;
    assert height + start == q * n + at;
    if i >= at {
      round := start + i - at;
      assert height + round == q * n + i;
      RemainderOf(q, i, n);
    } else {
      round := start + n + i - at;
      assert height + round == (q + 1) * n + i;
      RemainderOf(q + 1, i, n);
    }
  }
}

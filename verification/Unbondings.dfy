/** Releasing mature unbondings at the start of a block (`process_mature_unbondings` in `staking.rs`). */
module Unbondings {
  import opened Basics
  import opened State
  import opened Ledger
  import opened Overlay

  /** The entries that have matured at a height. */
  function Due(s: Store, height: u64): set<Key> {
    set k | k in s && k.UnbondingKey? && k.completion <= height
  }

  predicate Entry(s: Store, k: Key) {
    k in s && k.UnbondingKey? && s[k].UnbondingValue?
  }

  /** Credit the delegator, creating the account if needed, and delete the entry. */
  function ReleaseOne(s: Store, k: Key): Store
    requires Entry(s, k)
  {
    var found := GetAccount(s, k.delegator);
    var account := if found.Some? then found.value else AccountState(0, 0);
    SetAccount(s, k.delegator, account.(balance := SatAdd(account.balance, s[k].amount))) - {k}
  }

  ghost predicate Entries(s: Store, ks: set<Key>) {
    forall k :: k in ks ==> Entry(s, k)
  }

  ghost function ReleaseAll(s: Store, ks: set<Key>): Store
    requires Entries(s, ks)
    decreases |ks|
  {
    if ks == {} then s else var k :| k in ks; ReleaseAll(ReleaseOne(s, k), ks - {k})
  }

  /** One unreadable entry that has matured fails the scan before anything is written. */
  ghost function ReleaseMature(s: Store, height: u64): Store {
    if Entries(s, Due(s, height)) then ReleaseAll(s, Due(s, height)) else s
  }

  // ---------------------------------------------------------------------
  // The order does not matter
  // ---------------------------------------------------------------------

  function Paid(account: Option<Value>, amount: u64): Value {
    match account
    case Some(AccountValue(a)) => AccountValue(a.(balance := SatAdd(a.balance, amount)))
    case _ => AccountValue(AccountState(0, amount))
  }

  /** What a release leaves at each key. */
  lemma ReleaseOneAt(s: Store, k: Key, x: Key)
    requires Entry(s, k)
    ensures Lookup(ReleaseOne(s, k), x) ==
            if x == k then None
            else if x == AccountKey(k.delegator) then Some(Paid(Lookup(s, x), s[k].amount))
            else Lookup(s, x)
  {
  }

  lemma StaysEntry(s: Store, k: Key, j: Key)
    requires Entry(s, k) && Entry(s, j) && k != j
    ensures Entry(ReleaseOne(s, k), j) && ReleaseOne(s, k)[j] == s[j]
  {
  }

  /** Two payments to one account add up in either order. */
  lemma PaymentsCommute(account: Option<Value>, m: u64, n: u64)
    ensures Paid(Some(Paid(account, m)), n) == Paid(Some(Paid(account, n)), m)
  {
  }

  lemma ReleasesCommute(s: Store, k: Key, j: Key)
    requires Entry(s, k) && Entry(s, j) && k != j
    ensures Entry(ReleaseOne(s, k), j) && Entry(ReleaseOne(s, j), k)
    ensures ReleaseOne(ReleaseOne(s, k), j) == ReleaseOne(ReleaseOne(s, j), k)
  {
    hide ReleaseOne, Lookup, Paid;
    StaysEntry(s, k, j);
    StaysEntry(s, j, k);
    var sk, sj := ReleaseOne(s, k), ReleaseOne(s, j);
    var kj, jk := ReleaseOne(sk, j), ReleaseOne(sj, k);
    forall x ensures Lookup(kj, x) == Lookup(jk, x) {
      ReleaseOneAt(s, k, x);
      ReleaseOneAt(s, j, x);
      ReleaseOneAt(sk, j, x);
      ReleaseOneAt(sj, k, x);
      PaymentsCommute(Lookup(s, x), s[k].amount, s[j].amount);
    }
    StoreExtensional(kj, jk);
  }

  lemma EntriesStay(s: Store, ks: set<Key>, k: Key)
    requires Entries(s, ks) && k in ks
    ensures Entries(ReleaseOne(s, k), ks - {k})
  {
  }

  /** The entry that is released first. */
  lemma FirstReleased(s: Store, ks: set<Key>) returns (k: Key)
    requires Entries(s, ks) && ks != {}
    ensures k in ks && Entries(ReleaseOne(s, k), ks - {k})
    ensures ReleaseAll(s, ks) == ReleaseAll(ReleaseOne(s, k), ks - {k})
  {
    hide ReleaseOne;
    forall j | j in ks ensures Entries(ReleaseOne(s, j), ks - {j}) {
      EntriesStay(s, ks, j);
    }
    k :| k in ks && ReleaseAll(s, ks) == ReleaseAll(ReleaseOne(s, k), ks - {k});
  }

  /** Any entry may be released first. */
  lemma {:induction false} ReleaseAny(s: Store, ks: set<Key>, k: Key)
    requires Entries(s, ks) && k in ks
    ensures Entries(ReleaseOne(s, k), ks - {k}) && ReleaseAll(s, ks) == ReleaseAll(ReleaseOne(s, k), ks - {k})
    decreases |ks|
  {
    hide ReleaseOne;
    EntriesStay(s, ks, k);
    var j := FirstReleased(s, ks);
    if j != k {
      ReleasesCommute(s, k, j);
      ReleaseAny(ReleaseOne(s, j), ks - {j}, k);
      ReleaseAny(ReleaseOne(s, k), ks - {k}, j);
      assert ks - {j} - {k} == ks - {k} - {j};
    }
  }

  method ProcessMatureUnbondings(store: StateStore, height: u64)
    modifies store
    ensures store.data == ReleaseMature(old(store.data), height)
  {
    var mature := Due(store.data, height);
    var readable := forall k :: k in mature ==> store.data[k].UnbondingValue?;
    if !readable {
      return;
    }
    ghost var all := ReleaseAll(store.data, mature);
    while mature != {}
      invariant Entries(store.data, mature) && ReleaseAll(store.data, mature) == all
      decreases |mature|
    {
      var k :| k in mature;
      ReleaseAny(store.data, mature, k);
      var found := GetAccount(store.data, k.delegator);
      var account := if found.Some? then found.value else AccountState(0, 0);
      var amount := store.data[k].amount;
      store.Put(AccountKey(k.delegator), AccountValue(account.(balance := SatAdd(account.balance, amount))));
      store.Delete(k);
      mature := mature - {k};
    }
  }

  // ---------------------------------------------------------------------
  // What is unbonding
  // ---------------------------------------------------------------------

  ghost function Amounts(s: Store): map<Key, nat> {
    map k | k in s && k.UnbondingKey? && s[k].UnbondingValue? :: s[k].amount
  }

  /** Everything that is still unbonding. */
  ghost function Unbonding(s: Store): nat {
    SumOf(Amounts(s))
  }

  lemma SameEntriesSameSum(s: Store, t: Store)
    requires forall k: Key :: k.UnbondingKey? ==> Lookup(s, k) == Lookup(t, k)
    ensures Unbonding(s) == Unbonding(t)
  {
    forall k: Key | k.UnbondingKey? ensures (k in s <==> k in t) && (k in s ==> s[k] == t[k]) {
      assert Lookup(s, k) == Lookup(t, k);
    }
    assert Amounts(s) == Amounts(t);
  }

  /** Releasing one entry moves its amount from unbonding to the balances. */
  lemma ReleaseOneMoves(s: Store, k: Key)
    requires Entry(s, k) && Total(s) + Unbonding(s) <= U64_MAX
    ensures var s' := ReleaseOne(s, k);
            && Unbonding(s') == Unbonding(s) - s[k].amount && Total(s') == Total(s) + s[k].amount
            && GetSupply(s') == GetSupply(s)
  {
    hide Total;
    var s' := ReleaseOne(s, k);
    assert Amounts(s') == Amounts(s) - {k};
    SumRemove(Amounts(s), k);
    var found := GetAccount(s, k.delegator);
    var account := if found.Some? then found.value else AccountState(0, 0);
    var credited := account.(balance := SatAdd(account.balance, s[k].amount));
    TotalAfterSet(s, k.delegator, credited);
    var s1 := SetAccount(s, k.delegator, credited);
    forall a ensures GetAccount(s1, a) == GetAccount(s', a) {
    }
    SameBalancesSameTotal(s1, s');
  }

  /** Only accounts and unbonding entries change. */
  ghost predicate AccountsAndEntries(s: Store, t: Store) {
    forall k: Key :: !k.AccountKey? && !k.UnbondingKey? ==> Lookup(s, k) == Lookup(t, k)
  }

  lemma ReleaseOneWrites(s: Store, k: Key, x: Key)
    requires Entry(s, k) && !x.AccountKey?
    ensures Lookup(ReleaseOne(s, k), x) == if x == k then None else Lookup(s, x)
  {
  }

  lemma {:induction false} ReleaseAllMoves(s: Store, ks: set<Key>)
    requires Entries(s, ks) && Total(s) + Unbonding(s) <= U64_MAX
    ensures Total(ReleaseAll(s, ks)) + Unbonding(ReleaseAll(s, ks)) == Total(s) + Unbonding(s)
    decreases |ks|
  {
    hide Total, Unbonding;
    hide ReleaseOne;
    if ks == {} {
    } else {
      var k := FirstReleased(s, ks);
      ReleaseOneMoves(s, k);
      ReleaseAllMoves(ReleaseOne(s, k), ks - {k});
    }
  }

  /** Exactly the released entries are gone; of the rest only accounts may differ. */
  lemma {:induction false} ReleaseAllWrites(s: Store, ks: set<Key>, x: Key)
    requires Entries(s, ks) && !x.AccountKey?
    ensures Lookup(ReleaseAll(s, ks), x) == if x in ks then None else Lookup(s, x)
    decreases |ks|
  {
    hide ReleaseOne, Lookup;
    if ks == {} {
    } else {
      var k := FirstReleased(s, ks);
      ReleaseOneWrites(s, k, x);
      ReleaseAllWrites(ReleaseOne(s, k), ks - {k}, x);
    }
  }

  /**
   * Releasing mature unbondings moves value from them to the balances and creates none, as long as
   * what there is fits into a `u64`. If every mature entry can be read none is left afterwards; no
   * other key but accounts changes.
   */
  lemma ReleaseConserves(s: Store, height: u64)
    requires Total(s) + Unbonding(s) <= U64_MAX
    ensures var s' := ReleaseMature(s, height);
            && Total(s') + Unbonding(s') == Total(s) + Unbonding(s)
            && AccountsAndEntries(s, s')
            && (Entries(s, Due(s, height)) ==> Due(s', height) == {})
            && Unbonding(s') <= Unbonding(s)
  {
    hide Total, Unbonding;
    hide ReleaseAll;
    var due := Due(s, height);
    if Entries(s, due) {
      ReleaseAllMoves(s, due);
      forall x: Key | !x.AccountKey? ensures Lookup(ReleaseAll(s, due), x) == if x in due then None else Lookup(s, x) {
        ReleaseAllWrites(s, due, x);
      }
      FewerEntriesLess(s, ReleaseAll(s, due), due);
    }
  }

  lemma FewerEntriesLess(s: Store, t: Store, gone: set<Key>)
    requires forall k: Key :: k.UnbondingKey? ==> Lookup(t, k) == if k in gone then None else Lookup(s, k)
    ensures Unbonding(t) <= Unbonding(s)
  {
    forall k: Key | k.UnbondingKey? ensures (k in t <==> k in s && k !in gone) && (k in t ==> t[k] == s[k]) {
      assert Lookup(t, k) == if k in gone then None else Lookup(s, k);
    }
    assert Amounts(t) == Amounts(s) - gone;
    SumLess(Amounts(s), gone);
  }

  lemma {:induction false} SumLess<K>(m: map<K, nat>, gone: set<K>)
    ensures SumOf(m - gone) <= SumOf(m)
    decreases |gone|
  {
    if gone == {} {
      assert m - gone == m;
    } else {
      var k :| k in gone;
      SumLess(m, gone - {k});
      var kept := m - (gone - {k});
      assert m - gone == kept - {k};
      if k in kept {
        SumRemove(kept, k);
      } else {
        assert kept - {k} == kept;
      }
    }
  }

  // ---------------------------------------------------------------------
  // Who is paid
  // ---------------------------------------------------------------------

  /** The entries of one delegator among some. */
  ghost function Owed(s: Store, ks: set<Key>, a: Address): map<Key, nat>
    requires Entries(s, ks)
  {
    map k | k in ks && k.delegator == a :: s[k].amount
  }

  lemma OwedAfterOne(s: Store, ks: set<Key>, k: Key, a: Address)
    requires Entries(s, ks) && k in ks
    ensures Entries(ReleaseOne(s, k), ks - {k})
    ensures SumOf(Owed(s, ks, a)) ==
            SumOf(Owed(ReleaseOne(s, k), ks - {k}, a)) + (if k.delegator == a then s[k].amount else 0)
  {
    EntriesStay(s, ks, k);
    var before, after := Owed(s, ks, a), Owed(ReleaseOne(s, k), ks - {k}, a);
    if k.delegator == a {
      assert after == before - {k};
      SumRemove(before, k);
    } else {
      assert after == before;
    }
  }

  lemma ReleaseOnePays(s: Store, k: Key, a: Address)
    requires Entry(s, k)
    ensures BalanceOf(ReleaseOne(s, k), a) ==
            SatAdd(BalanceOf(s, a), if k.delegator == a then s[k].amount else 0)
    ensures SameNonce(GetAccount(s, a), GetAccount(ReleaseOne(s, k), a))
  {
  }

  /** An account keeps its nonce; one that is made for a release starts at zero. */
  predicate SameNonce(before: Option<AccountState>, after: Option<AccountState>) {
    if before.Some? then after.Some? && after.value.nonce == before.value.nonce
    else after.Some? ==> after.value.nonce == 0
  }

  lemma {:induction false} ReleaseAllPays(s: Store, ks: set<Key>, a: Address)
    requires Entries(s, ks)
    ensures BalanceOf(ReleaseAll(s, ks), a) == SatAdd(BalanceOf(s, a), SumOf(Owed(s, ks, a)))
    ensures SameNonce(GetAccount(s, a), GetAccount(ReleaseAll(s, ks), a))
    decreases |ks|
  {
    hide ReleaseOne;
    if ks == {} {
      assert Owed(s, ks, a) == map[];
    } else {
      hide Owed;
      var k := FirstReleased(s, ks);
      OwedAfterOne(s, ks, k, a);
      ReleaseOnePays(s, k, a);
      ReleaseAllPays(ReleaseOne(s, k), ks - {k}, a);
    }
  }

  /** What is due to one account: all it has unbonding with a completion height of at most `height`. */
  ghost function DueTo(s: Store, height: u64, a: Address): map<Key, nat> {
    map k | k in s && k.UnbondingKey? && k.completion <= height && k.delegator == a && s[k].UnbondingValue? ::
      s[k].amount
  }

  /** Every mature entry can be read. */
  ghost predicate Readable(s: Store, height: u64) {
    forall k :: k in s && k.UnbondingKey? && k.completion <= height ==> s[k].UnbondingValue?
  }

  lemma ReadableExactly(s: Store, height: u64)
    ensures Entries(s, Due(s, height)) <==> Readable(s, height)
  {
    if Entries(s, Due(s, height)) {
      forall k | k in s && k.UnbondingKey? && k.completion <= height ensures s[k].UnbondingValue? {
        assert k in Due(s, height);
      }
    }
  }

  lemma DueFits(s: Store, height: u64, a: Address)
    ensures SumOf(DueTo(s, height, a)) <= Unbonding(s) && BalanceOf(s, a) <= Total(s)
  {
    var others := Amounts(s).Keys - DueTo(s, height, a).Keys;
    assert Amounts(s) - others == DueTo(s, height, a);
    SumLess(Amounts(s), others);
    TotalAfterSet(s, a, AccountState(0, 0));
  }

  /**
   * Each account is paid all its mature entries and nothing else, its nonce stays, and no other entry
   * is touched; a balance saturates only where more is held than fits into a `u64`. One mature entry
   * that cannot be read holds everything up.
   */
  lemma ReleasePays(s: Store, height: u64, a: Address)
    ensures var s', due := ReleaseMature(s, height), SumOf(DueTo(s, height, a));
            if Readable(s, height) then
              && BalanceOf(s', a) == SatAdd(BalanceOf(s, a), due)
              && (Total(s) + Unbonding(s) <= U64_MAX ==> BalanceOf(s', a) == BalanceOf(s, a) + due)
              && SameNonce(GetAccount(s, a), GetAccount(s', a))
              && forall k: Key | k.UnbondingKey? ::
                   Lookup(s', k) == if k.completion <= height then None else Lookup(s, k)
            else s' == s
  {
    hide Total, Unbonding, ReleaseAll;
    var due := Due(s, height);
    ReadableExactly(s, height);
    if Readable(s, height) {
      ReleaseAllPays(s, due, a);
      assert Owed(s, due, a) == DueTo(s, height, a);
      DueFits(s, height, a);
      forall k: Key | k.UnbondingKey?
        ensures Lookup(ReleaseAll(s, due), k) == if k.completion <= height then None else Lookup(s, k)
      {
        ReleaseAllWrites(s, due, k);
      }
    }
  }
}

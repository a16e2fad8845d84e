/** The key-value store behind execution: keys, the records kept under them, and receipts. */
module State {
  import opened Basics

  /** State keys; the constructors stand for the prefixes of the byte encoding, which never collide. */
  datatype Key =
    | AccountKey(owner: Address)
    | BalanceKey(owner: Address)
    | AssetClassKey(id: Hash)
    | AssetBalanceKey(id: Hash, owner: Address)
    | ListingKey(id: Hash)
    | ProfileKey(owner: Address)
    | ValidatorKey(owner: Address)
    | DelegationKey(delegator: Address, validator: Address)
    | SessionKey(granter: Address, session: Address)
    | UnbondingKey(completion: u64, delegator: Address, index: nat)
    | SupplyKey

  datatype AccountState = AccountState(nonce: u64, balance: u64)

  datatype SupplyInfo = SupplyInfo(
    totalSupply: u64,
    circulatingSupply: u64,
    totalStaked: u64,
    totalBurned: u64,
    treasuryBalance: u64,
    totalMinted: u64,
    totalFeesCollected: u64)

  datatype SessionGrant = SessionGrant(
    anyAction: bool,
    actions: set<string>,
    expiresAt: u64,
    spendingLimit: u64,
    amountSpent: u64,
    revoked: bool)

  datatype Value =
    | AccountValue(account: AccountState)
    | SupplyValue(supply: SupplyInfo)
    | SessionValue(grant: SessionGrant)
    | ValidatorValue(stake: u64, blocksProduced: u64)
    | UnbondingValue(amount: u64)
    | OtherValue(data: nat)

  type Store = map<Key, Value>

  datatype Receipt = Receipt(success: bool, feeUsed: u64, gasUsed: u64, feePayer: Address)

  /** Pending writes of an overlay: `None` is a tombstone. */
  type Writes = map<Key, Option<Value>>

  /** Flushing an overlay into a store: puts override, tombstones remove. */
  function ApplyWrites(s: Store, w: Writes): Store {
    map k | k in s.Keys + w.Keys && (k in w ==> w[k].Some?) :: if k in w then w[k].value else s[k]
  }

  function Lookup(s: Store, k: Key): Option<Value> {
    if k in s then Some(s[k]) else None
  }

  /** What reading through an overlay returns. */
  function LookupThrough(s: Store, w: Writes, k: Key): Option<Value> {
    if k in w then w[k] else Lookup(s, k)
  }

  lemma LookupAfterApply(s: Store, w: Writes, k: Key)
    ensures Lookup(ApplyWrites(s, w), k) == LookupThrough(s, w, k)
  {
  }

  /** Two stores in which every key looks the same are the same store. */
  lemma StoreExtensional(s: Store, t: Store)
    requires forall k :: Lookup(s, k) == Lookup(t, k)
    ensures s == t
  {
    forall k ensures k in s <==> k in t {
      assert Lookup(s, k) == Lookup(t, k);
    }
    forall k | k in s ensures s[k] == t[k] {
      assert Lookup(s, k) == Lookup(t, k);
    }
  }

  predicate AgreeOn(s: Store, t: Store, keys: set<Key>) {
    forall k :: k in keys ==> Lookup(s, k) == Lookup(t, k)
  }
}

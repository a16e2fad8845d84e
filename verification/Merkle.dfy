/**
 * `merkle_root` of `hash.rs`. The level-by-level loop, which promotes an unpaired node, computes
 * the tree that splits its leaves at the largest power of two below their number (the shape of
 * section 2.1 of RFC 6962, without that RFC's prefixes). SHA-256 of a prefixed pair is any
 * function `combine`.
 */
module Merkle {
  import opened Basics

  type Combine = (Hash, Hash) -> Hash

  // ---------------------------------------------------------------------
  // Splitting at a power of two
  // ---------------------------------------------------------------------

  predicate PowerOfTwo(p: nat) {
    p == 1 || (p > 1 && p % 2 == 0 && PowerOfTwo(p / 2))
  }

  /** `p` is the largest power of two below `n`. */
  predicate SplitsAt(p: nat, n: nat) {
    PowerOfTwo(p) && p < n <= 2 * p
  }

  function Split(n: nat): (p: nat)
    requires n >= 2
    ensures SplitsAt(p, n)
  {
    if n == 2 then 1 else 2 * Split((n + 1) / 2)
  }

  lemma {:induction false} SplitUnique(p: nat, q: nat, n: nat)
    requires SplitsAt(p, n) && SplitsAt(q, n)
    ensures p == q
  {
    if p > 1 && q > 1 {
      SplitUnique(p / 2, q / 2, (n + 1) / 2);
    }
  }

  // ---------------------------------------------------------------------
  // The tree and the levels
  // ---------------------------------------------------------------------

  /** The reference tree. */
  function Tree(combine: Combine, leaves: seq<Hash>): Hash
    requires leaves != []
    decreases |leaves|
  {
    if |leaves| == 1 then leaves[0]
    else
      var k := Split(|leaves|);
      combine(Tree(combine, leaves[..k]), Tree(combine, leaves[k..]))
  }

  function Root(combine: Combine, leaves: seq<Hash>): Hash {
    if leaves == [] then ZERO_HASH else Tree(combine, leaves)
  }

  /** One level up: neighbours combined, an unpaired last node promoted. */
  function Parents(combine: Combine, level: seq<Hash>): (up: seq<Hash>)
    ensures |up| == (|level| + 1) / 2
  {
    if |level| < 2 then level else [combine(level[0], level[1])] + Parents(combine, level[2..])
  }

  lemma {:induction false} ParentsAppend(combine: Combine, a: seq<Hash>, b: seq<Hash>)
    requires |a| % 2 == 0
    ensures Parents(combine, a + b) == Parents(combine, a) + Parents(combine, b)
  {
    if a == [] {
      assert a + b == b;
    } else {
      assert (a + b)[2..] == a[2..] + b;
      ParentsAppend(combine, a[2..], b);
    }
  }

  /** Going one level up does not change the root. */
  lemma {:induction false} ParentsKeepTree(combine: Combine, level: seq<Hash>)
    requires level != []
    ensures Tree(combine, Parents(combine, level)) == Tree(combine, level)
    decreases |level|
  {
    var n := |level|;
    if n == 2 {
      assert Parents(combine, level[2..]) == [];
      assert Split(2) == 1;
    } else if n > 2 {
      var k := Split(n);
      var up := Parents(combine, level);
      SplitUnique(Split(|up|), k / 2, |up|);
      assert level == level[..k] + level[k..];
      ParentsAppend(combine, level[..k], level[k..]);
      assert up[..k / 2] == Parents(combine, level[..k]) && up[k / 2..] == Parents(combine, level[k..]);
      ParentsKeepTree(combine, level[..k]);
      ParentsKeepTree(combine, level[k..]);
    }
  }

  lemma ParentsSnocPair(combine: Combine, level: seq<Hash>, i: nat)
    requires i % 2 == 0 && i + 1 < |level|
    ensures Parents(combine, level[..i + 2]) == Parents(combine, level[..i]) + [combine(level[i], level[i + 1])]
  {
    var pair := level[i..i + 2];
    assert level[..i + 2] == level[..i] + pair;
    ParentsAppend(combine, level[..i], pair);
    assert Parents(combine, pair[2..]) == [];
  }

  /** The inner loop of `merkle_root`: pair up, then promote what is left. */
  method NextLevel(combine: Combine, level: seq<Hash>) returns (next: seq<Hash>)
    ensures next == Parents(combine, level)
  {
    next := [];
    var i := 0;
    while i + 1 < |level|
      invariant 0 <= i <= |level| && i % 2 == 0
      invariant next == Parents(combine, level[..i])
    {
      ParentsSnocPair(combine, level, i);
      next := next + [combine(level[i], level[i + 1])];
      i := i + 2;
    }
    assert level == level[..i] + level[i..];
    ParentsAppend(combine, level[..i], level[i..]);
    if i < |level| {
      next := next + [level[i]];
    }
  }

  method MerkleRoot(combine: Combine, hashes: seq<Hash>) returns (r: Hash)
    ensures r == Root(combine, hashes)
  {
    if hashes == [] {
      return ZERO_HASH;
    }
    if |hashes| == 1 {
      return hashes[0];
    }
    var level := hashes;
    while |level| > 1
      invariant level != [] && Tree(combine, level) == Tree(combine, hashes)
      decreases |level|
    {
      ParentsKeepTree(combine, level);
      level := NextLevel(combine, level);
    }
    r := level[0];
  }

  // ---------------------------------------------------------------------
  // Binding
  // ---------------------------------------------------------------------

  datatype Collision = Collision(a: Hash, b: Hash, c: Hash, d: Hash)

  /** Two different pairs with one image. */
  predicate Collides(combine: Combine, x: Collision) {
    (x.a, x.b) != (x.c, x.d) && combine(x.a, x.b) == combine(x.c, x.d)
  }

  /** Two different lists of one length with one root give away a collision of `combine`. */
  lemma {:induction false} EqualLengthBinding(combine: Combine, l1: seq<Hash>, l2: seq<Hash>) returns (x: Collision)
    requires l1 != [] && |l1| == |l2| && l1 != l2
    requires Tree(combine, l1) == Tree(combine, l2)
    ensures Collides(combine, x)
    decreases |l1|
  {
    var k := Split(|l1|);
    var a, b := Tree(combine, l1[..k]), Tree(combine, l1[k..]);
    var c, d := Tree(combine, l2[..k]), Tree(combine, l2[k..]);
    if (a, b) != (c, d) {
      x := Collision(a, b, c, d);
    } else if l1[..k] != l2[..k] {
      x := EqualLengthBinding(combine, l1[..k], l2[..k]);
    } else {
      assert l1 == l1[..k] + l1[k..] && l2 == l2[..k] + l2[k..];
      x := EqualLengthBinding(combine, l1[k..], l2[k..]);
    }
  }

  /**
   * Without the length the root binds nothing: every list of at least two hashes shares its root
   * with a shorter one.
   */
  lemma ShorterTwin(combine: Combine, l: seq<Hash>)
    requires |l| >= 2
    ensures |Parents(combine, l)| < |l| && Root(combine, Parents(combine, l)) == Root(combine, l)
  {
    ParentsKeepTree(combine, l);
  }

  /**
   * The case the source guards against: repeating the last hash of an odd list. An equal root
   * then needs a collision or a hash that is its own parent.
   */
  lemma RepeatedTailDetected(combine: Combine, l: seq<Hash>) returns (x: Collision)
    requires |l| % 2 == 1
    requires Root(combine, l) == Root(combine, l + [l[|l| - 1]])
    ensures var z := l[|l| - 1]; combine(z, z) == z || Collides(combine, x)
  {
    var n, z := |l|, l[|l| - 1];
    var init := l[..n - 1];
    assert l == init + [z] && l + [z] == init + [z, z];
    ParentsAppend(combine, init, [z]);
    ParentsAppend(combine, init, [z, z]);
    assert Parents(combine, [z, z]) == [combine(z, z)] by {
      assert Parents(combine, [z, z][2..]) == [];
    }
    ParentsKeepTree(combine, l);
    ParentsKeepTree(combine, l + [z]);
    var up, up' := Parents(combine, l), Parents(combine, l + [z]);
    assert up == Parents(combine, init) + [z] && up' == Parents(combine, init) + [combine(z, z)];
    if combine(z, z) != z {
      assert up[|up| - 1] != up'[|up'| - 1];
      x := EqualLengthBinding(combine, up, up');
    } else {
      x := Collision(z, z, z, z);
    }
  }

  ghost predicate CollisionFree(combine: Combine) {
    forall x :: !Collides(combine, x)
  }

  /** For a collision-free `combine` and lists of one length, equal roots mean equal lists. */
  lemma RootsBindLists(combine: Combine, l1: seq<Hash>, l2: seq<Hash>)
    requires CollisionFree(combine) && |l1| == |l2|
    ensures Root(combine, l1) == Root(combine, l2) <==> l1 == l2
  {
    if l1 != l2 && Root(combine, l1) == Root(combine, l2) {
      var x := EqualLengthBinding(combine, l1, l2);
    }
  }

  // ---------------------------------------------------------------------
  // The shape of the tree
  // ---------------------------------------------------------------------

  /** A full subtree on the left joins with whatever fits beside it, left before right. */
  lemma RootsJoin(combine: Combine, left: seq<Hash>, right: seq<Hash>)
    requires PowerOfTwo(|left|) && 0 < |right| <= |left|
    ensures Root(combine, left + right) == combine(Root(combine, left), Root(combine, right))
  {
    var all := left + right;
    SplitUnique(Split(|all|), |left|, |all|);
    assert all[..|left|] == left && all[|left|..] == right;
  }

  /** No hashes give the zero hash, one gives itself, and two their combination in order. */
  lemma SmallRoots(combine: Combine, a: Hash, b: Hash)
    ensures Root(combine, []) == ZERO_HASH
    ensures Root(combine, [a]) == a
    ensures Root(combine, [a, b]) == combine(a, b)
  {
    RootsJoin(combine, [a], [b]);
    assert [a] + [b] == [a, b];
  }
}

/** The Merkle root: the level-by-level loop, and the top-down tree it computes. */
module Merkle {
  import opened Types

  function Combine(c: Crypto, a: Hash, b: Hash): Hash {
    c.blake2b(a + b)
  }

  function Pow2(n: nat): nat {
    if n == 0 then 1 else 2 * Pow2(n - 1)
  }

  /** Number of nodes at a level, counting from n leaves. */
  function Width(n: nat, level: nat): (w: nat)
    ensures n > 0 ==> w > 0
  {
    if level == 0 then n else (Width(n, level - 1) + 1) / 2
  }

  /** The number of levels above n leaves. */
  function Height(n: nat): nat {
    if n <= 1 then 0 else 1 + Height((n + 1) / 2)
  }

  lemma {:induction false} WidthFromBelow(n: nat, level: nat)
    ensures Width(n, level + 1) == Width((n + 1) / 2, level)
  {
    if level > 0 { WidthFromBelow(n, level - 1); }
  }

  /** One node is left at level h exactly from the height on. */
  lemma {:induction false} WidthIsOne(n: nat, level: nat)
    requires n > 0
    ensures Width(n, level) == 1 <==> Height(n) <= level
  {
    if n > 1 && level > 0 {
      WidthFromBelow(n, level - 1);
      WidthIsOne((n + 1) / 2, level - 1);
    } else if n == 1 && level > 0 {
      WidthIsOne(1, level - 1);
    }
  }

  /** The height is the least h with 2^h >= n. */
  lemma {:induction false} HeightIsLeast(n: nat, h: nat)
    requires n > 0
    ensures Pow2(h) >= n <==> Height(n) <= h
  {
    if n > 1 && h > 0 {
      HeightIsLeast((n + 1) / 2, h - 1);
    } else if n == 1 {
      PowPositive(h);
    }
  }

  lemma {:induction false} PowPositive(h: nat)
    ensures Pow2(h) >= 1
  {
    if h > 0 { PowPositive(h - 1); }
  }

  /** Node i of a level: a leaf, or the combination of two children, the last child standing in for a missing one. */
  function Node(c: Crypto, leaves: seq<Hash>, level: nat, i: nat): Hash
    requires i < Width(|leaves|, level)
    decreases level, 1
  {
    if level == 0 then leaves[i]
    else Combine(c, LeftChild(c, leaves, level, i), RightChild(c, leaves, level, i))
  }

  function LeftChild(c: Crypto, leaves: seq<Hash>, level: nat, i: nat): Hash
    requires level > 0 && i < Width(|leaves|, level)
    decreases level, 0
  {
    Node(c, leaves, level - 1, 2 * i)
  }

  function RightChild(c: Crypto, leaves: seq<Hash>, level: nat, i: nat): Hash
    requires level > 0 && i < Width(|leaves|, level)
    decreases level, 0
  {
    Node(c, leaves, level - 1, if 2 * i + 1 < Width(|leaves|, level - 1) then 2 * i + 1 else 2 * i)
  }

  function MerkleRoot(c: Crypto, leaves: seq<Hash>): Hash {
    if leaves == [] then ZeroHash() else
      WidthIsOne(|leaves|, Height(|leaves|));
      Node(c, leaves, Height(|leaves|), 0)
  }

  ghost predicate IsLevel(c: Crypto, leaves: seq<Hash>, level: nat, nodes: seq<Hash>) {
    |nodes| == Width(|leaves|, level)
    && forall i :: 0 <= i < |nodes| ==> nodes[i] == Node(c, leaves, level, i)
  }

  /**
   The loop as written: pad an odd level with a copy of its last node, combine
   neighbours, repeat. `rounds` counts the iterations.
  */
  method ComputeMerkleRoot(c: Crypto, leaves: seq<Hash>) returns (root: Hash, ghost rounds: nat)
    ensures root == MerkleRoot(c, leaves)
    ensures leaves != [] ==> Pow2(rounds) >= |leaves| && forall h :: Pow2(h) >= |leaves| ==> rounds <= h
  {
    hide Combine, Height, Pow2, Node, Width;
    rounds := 0;
    if leaves == [] {
      return ZeroHash(), 0;
    }
    var cur := leaves;
    LeavesAreLevel(c, leaves);
    while |cur| > 1
      invariant |cur| > 0 && IsLevel(c, leaves, rounds, cur)
      invariant rounds > 0 ==> Width(|leaves|, rounds - 1) > 1
      decreases |cur|
    {
      ghost var before := cur;
      if |cur| % 2 == 1 {
        cur := cur + [cur[|cur| - 1]];
      }
      PaddedPairs(c, leaves, rounds, before, cur);
      cur := CombinePairs(c, cur);
      rounds := rounds + 1;
    }
    LeastRounds(|leaves|, rounds);
    root := cur[0];
  }

  /** The inner loop: one node for each pair of neighbours. */
  method CombinePairs(c: Crypto, cur: seq<Hash>) returns (next: seq<Hash>)
    requires |cur| % 2 == 0
    ensures |cur| == 2 * |next|
    ensures forall j :: 0 <= j < |next| ==> next[j] == Combine(c, cur[2 * j], cur[2 * j + 1])
  {
    hide Combine;
    next := [];
    var i := 0;
    while i < |cur|
      invariant i == 2 * |next| <= |cur|
      invariant forall j :: 0 <= j < |next| ==> next[j] == Combine(c, cur[2 * j], cur[2 * j + 1])
      decreases |cur| - i
    {
      next := next + [Combine(c, cur[i], cur[i + 1])];
      i := i + 2;
    }
  }

  /** After padding, neighbours combine to the nodes above. */
  lemma PaddedPairs(c: Crypto, leaves: seq<Hash>, level: nat, nodes: seq<Hash>, padded: seq<Hash>)
    requires IsLevel(c, leaves, level, nodes) && |nodes| > 1
    requires padded == if |nodes| % 2 == 1 then nodes + [nodes[|nodes| - 1]] else nodes
    ensures |padded| == 2 * Width(|leaves|, level + 1)
    ensures forall j :: 0 <= j < Width(|leaves|, level + 1) ==>
      Node(c, leaves, level + 1, j) == Combine(c, padded[2 * j], padded[2 * j + 1])
  {
    hide Combine;
  }

  lemma LeavesAreLevel(c: Crypto, leaves: seq<Hash>)
    ensures IsLevel(c, leaves, 0, leaves)
  {
  }

  lemma LeastRounds(n: nat, h: nat)
    requires n > 0 && Width(n, h) == 1 && (h > 0 ==> Width(n, h - 1) > 1)
    ensures h == Height(n)
    ensures Pow2(h) >= n && forall k :: Pow2(k) >= n ==> h <= k
  {
    WidthIsOne(n, h);
    if h > 0 {
      WidthIsOne(n, h - 1);
    }
    HeightIsLeast(n, h);
    forall k | Pow2(k) >= n ensures h <= k {
      HeightIsLeast(n, k);
    }
  }

  // --------------------------------------------------------------------- binding

  /** Two different pairs with one combination. */
  predicate Collision(c: Crypto, a: Hash, b: Hash, a': Hash, b': Hash) {
    (a, b) != (a', b') && Combine(c, a, b) == Combine(c, a', b')
  }

  predicate CollisionAt(c: Crypto, xs: seq<Hash>, ys: seq<Hash>, level: nat, i: nat)
    requires |xs| == |ys|
  {
    0 < level && i < Width(|xs|, level)
    && Collision(c, LeftChild(c, xs, level, i), RightChild(c, xs, level, i),
                 LeftChild(c, ys, level, i), RightChild(c, ys, level, i))
  }

  ghost predicate SameLevel(c: Crypto, xs: seq<Hash>, ys: seq<Hash>, level: nat)
    requires |xs| == |ys|
  {
    forall i: nat :: i < Width(|xs|, level) ==> Node(c, xs, level, i) == Node(c, ys, level, i)
  }

  lemma {:induction false} SameBelow(c: Crypto, xs: seq<Hash>, ys: seq<Hash>, level: nat)
    requires |xs| == |ys| && SameLevel(c, xs, ys, level)
    requires forall l: nat, i: nat :: !CollisionAt(c, xs, ys, l, i)
    ensures SameLevel(c, xs, ys, 0)
  {
    if level > 0 {
      var lower := level - 1;
      forall j: nat | j < Width(|xs|, lower)
        ensures Node(c, xs, lower, j) == Node(c, ys, lower, j)
      {
        var i := j / 2;
        assert !CollisionAt(c, xs, ys, level, i);
        assert Node(c, xs, level, i) == Node(c, ys, level, i);
        assert LeftChild(c, xs, level, i) == LeftChild(c, ys, level, i);
        assert RightChild(c, xs, level, i) == RightChild(c, ys, level, i);
      }
      SameBelow(c, xs, ys, lower);
    }
  }

  /** Lists of one length with one root are equal, or the two trees exhibit a collision. */
  lemma MerkleBinding(c: Crypto, xs: seq<Hash>, ys: seq<Hash>)
    requires |xs| == |ys| && MerkleRoot(c, xs) == MerkleRoot(c, ys)
    ensures xs == ys || exists level: nat, i: nat :: CollisionAt(c, xs, ys, level, i)
  {
    if xs != [] && forall level: nat, i: nat :: !CollisionAt(c, xs, ys, level, i) {
      var h := Height(|xs|);
      WidthIsOne(|xs|, h);
      SameBelow(c, xs, ys, h);
      forall i | 0 <= i < |xs| ensures xs[i] == ys[i] {
        assert Node(c, xs, 0, i) == Node(c, ys, 0, i);
      }
    }
  }

  // ------------------------------------------------------------- what is hashed

  /** No leaves give the zero hash, one leaf itself, two the hash of the first followed by the second. */
  lemma SmallTrees(c: Crypto, x: Hash, y: Hash)
    ensures MerkleRoot(c, []) == seq(32, _ => 0)
    ensures MerkleRoot(c, [x]) == x
    ensures MerkleRoot(c, [x, y]) == c.blake2b(x + y)
  {
    hide Combine;
    assert Height(1) == 0 && Height(2) == 1;
    assert Width(1, 0) == 1 && Width(2, 0) == 2 && Width(2, 1) == 1;
    assert LeftChild(c, [x, y], 1, 0) == x && RightChild(c, [x, y], 1, 0) == y;
    CombineHashes(c, x, y);
  }

  lemma CombineHashes(c: Crypto, x: Hash, y: Hash)
    ensures Combine(c, x, y) == c.blake2b(x + y)
  {
  }

  /**
   The tree from the leaves up: each node of a level is the hash of 64 bytes, the
   node at twice its place one level below followed by the next, or by the same
   one again where the level below ends.
  */
  lemma LevelEquation(c: Crypto, leaves: seq<Hash>, level: nat, i: nat)
    requires i < Width(|leaves|, level + 1)
    ensures 2 * i < Width(|leaves|, level)
    ensures var last := Width(|leaves|, level) - 1;
      Node(c, leaves, level + 1, i)
      == c.blake2b(Node(c, leaves, level, 2 * i) + Node(c, leaves, level, if 2 * i < last then 2 * i + 1 else last))
  {
  }

  /**
   Equal roots over equally many different leaves come with two different 64-byte
   strings of one hash: at some place in the two trees, what a node hashes.
  */
  lemma RootBindsLeaves(c: Crypto, xs: seq<Hash>, ys: seq<Hash>) returns (level: nat, i: nat)
    requires |xs| == |ys| && xs != ys && MerkleRoot(c, xs) == MerkleRoot(c, ys)
    ensures 0 < level && i < Width(|xs|, level)
    ensures var x := LeftChild(c, xs, level, i) + RightChild(c, xs, level, i);
      var y := LeftChild(c, ys, level, i) + RightChild(c, ys, level, i);
      |x| == |y| == 64 && x != y && c.blake2b(x) == c.blake2b(y)
  {
    hide Combine, MerkleRoot, LeftChild, RightChild, Width;
    MerkleBinding(c, xs, ys);
    level, i :| CollisionAt(c, xs, ys, level, i);
    PairCollides(c, LeftChild(c, xs, level, i), RightChild(c, xs, level, i),
                 LeftChild(c, ys, level, i), RightChild(c, ys, level, i));
  }

  lemma PairCollides(c: Crypto, a: Hash, b: Hash, a': Hash, b': Hash)
    requires Collision(c, a, b, a', b')
    ensures a + b != a' + b' && c.blake2b(a + b) == c.blake2b(a' + b')
  {
    CombineHashes(c, a, b);
    CombineHashes(c, a', b');
    assert (a + b)[..32] == a && (a' + b')[..32] == a';
    assert (a + b)[32..] == b && (a' + b')[32..] == b';
  }

  lemma {:induction false} SameUpperNodes(c: Crypto, xs: seq<Hash>, level: nat, i: nat)
    requires |xs| % 2 == 1 && level > 0
    ensures Width(|xs| + 1, level) == Width(|xs|, level)
    ensures i < Width(|xs|, level) ==> Node(c, xs + [xs[|xs| - 1]], level, i) == Node(c, xs, level, i)
  {
    hide Combine;
    var ys := xs + [xs[|xs| - 1]];
    if level > 1 {
      SameUpperNodes(c, xs, level - 1, 2 * i);
      SameUpperNodes(c, xs, level - 1, 2 * i + 1);
      SameUpperNodes(c, xs, level - 1, Width(|xs|, level - 1) - 1);
    }
    if i < Width(|xs|, level) {
      assert LeftChild(c, ys, level, i) == LeftChild(c, xs, level, i);
      assert RightChild(c, ys, level, i) == RightChild(c, xs, level, i);
    }
  }

  /** Equal length is needed: an odd list and its padded copy always share their root. */
  lemma PaddingKeepsRoot(c: Crypto, xs: seq<Hash>)
    requires |xs| % 2 == 1 && |xs| > 1
    ensures MerkleRoot(c, xs + [xs[|xs| - 1]]) == MerkleRoot(c, xs)
  {
    var h := Height(|xs|);
    assert (|xs| + 2) / 2 == (|xs| + 1) / 2;
    assert Height(|xs| + 1) == h;
    WidthIsOne(|xs|, h);
    SameUpperNodes(c, xs, h, 0);
  }
}

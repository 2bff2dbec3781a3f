/** The fixed-capacity incremental Merkle tree of `crypto`: a heap-ordered node array whose root path
    is repaired on every `set`, against a plain level-by-level tree hash of its leaves. */
module Merkle {
  import opened Bytes
  import opened Hashing

  const DOMAIN_NODE := Ascii("dexos:node:v1")
  const USIZE_BITS := 64
  const USIZE_SIZE := U64_SIZE

  datatype MerkleError = IndexOutOfRange | InvalidRepresentation | InconsistentInternalNode

  /** The parent-hash function a tree is built with; `HashNode(sha)` in production. */
  type NodeHash = (Hash, Hash) -> Hash

  /** `hash_node`: order-sensitive and domain-separated. */
  function HashNode(sha: Sha): NodeHash {
    (left: Hash, right: Hash) => HashDomain(sha, DOMAIN_NODE, AsBytes(left) + AsBytes(right))
  }

  function NodePreimage(left: Hash, right: Hash): seq<byte> {
    Preimage(DOMAIN_NODE, AsBytes(left) + AsBytes(right))
  }

  /** The bytes `hash_node` hashes determine both children. */
  lemma {:induction false} NodePreimageInjective(l1: Hash, r1: Hash, l2: Hash, r2: Hash)
    requires NodePreimage(l1, r1) == NodePreimage(l2, r2)
    ensures l1 == l2 && r1 == r2
  {
    PreimageInjective(DOMAIN_NODE, AsBytes(l1) + AsBytes(r1), DOMAIN_NODE, AsBytes(l2) + AsBytes(r2));
    CancelPrefix(AsBytes(l1), AsBytes(r1), AsBytes(l2), AsBytes(r2));
    AsBytesInjective(l1, l2);
    AsBytesInjective(r1, r2);
  }

  predicate SameParent(node: NodeHash, x: (Hash, Hash), y: (Hash, Hash)) {
    node(x.0, x.1) == node(y.0, y.1)
  }

  /** No two distinct child pairs of `s` have the same parent. */
  ghost predicate Binding(node: NodeHash, s: iset<(Hash, Hash)>) {
    forall x, y {:trigger SameParent(node, x, y)} | x in s && y in s && SameParent(node, x, y) :: x == y
  }

  /** The child pairs whose parents are hashed from these preimages. */
  ghost function NodePairs(preimages: iset<seq<byte>>): iset<(Hash, Hash)> {
    iset x: (Hash, Hash) | NodePreimage(x.0, x.1) in preimages
  }

  /** A hash function without collisions among the preimages gives binding nodes. */
  lemma {:induction false} HashNodeBinds(sha: Sha, preimages: iset<seq<byte>>)
    requires CollisionFree(sha, preimages)
    ensures Binding(HashNode(sha), NodePairs(preimages))
  {
    var s := NodePairs(preimages);
    forall x, y | x in s && y in s && SameParent(HashNode(sha), x, y)
      ensures x == y
    {
      assert HashNode(sha)(x.0, x.1) == sha(NodePreimage(x.0, x.1));
      assert HashNode(sha)(y.0, y.1) == sha(NodePreimage(y.0, y.1));
      assert Collide(sha, NodePreimage(x.0, x.1), NodePreimage(y.0, y.1));
      NodePreimageInjective(x.0, x.1, y.0, y.1);
    }
  }

  // ---- the reference tree --------------------------------------------------

  /** Tree depth: the least d with 2^d >= n, searching upward from d. */
  function DepthFrom(d: nat, n: nat): (r: nat)
    requires d == 0 || Pow2(d - 1) < n
    ensures Pow2(r) >= n && (r == 0 || Pow2(r - 1) < n)
    decreases n - Pow2(d)
  {
    if Pow2(d) >= n then d else DepthFrom(d + 1, n)
  }

  function Depth(n: nat): (d: nat)
    ensures Pow2(d) >= n && (d == 0 || Pow2(d - 1) < n)
  {
    DepthFrom(0, n)
  }

  /** `n.max(1).next_power_of_two()`. */
  function Capacity(n: nat): nat { Pow2(Depth(n)) }

  predicate IsPow2(n: nat) { n == Capacity(n) }

  lemma {:induction false} DepthOfPow2(d: nat)
    ensures Depth(Pow2(d)) == d
  {
    var r := Depth(Pow2(d));
    if r < d { Pow2Monotone(r, d - 1); } else if r > d { Pow2Monotone(d, r - 1); }
  }

  function Zeros(n: nat): (s: seq<Hash>)
    ensures |s| == n && forall i | 0 <= i < n :: s[i] == ZERO
  {
    seq(n, _ => ZERO)
  }

  /** Leaves padded with `ZERO` up to the tree capacity. */
  function Padded(leaves: seq<Hash>): (s: seq<Hash>)
    ensures |s| == Capacity(|leaves|) && leaves <= s
  {
    leaves + Zeros(Capacity(|leaves|) - |leaves|)
  }

  /** Leaf k of the infinite zero-padded leaf row. */
  function Leaf(leaves: seq<Hash>, k: nat): Hash {
    if k < |leaves| then leaves[k] else ZERO
  }

  /** The k-th node at height h: the hash of the 2^h leaves from k * 2^h on. */
  function At(node: NodeHash, leaves: seq<Hash>, h: nat, k: nat): Hash
    decreases h
  {
    if h == 0 then Leaf(leaves, k) else node(At(node, leaves, h - 1, 2 * k), At(node, leaves, h - 1, 2 * k + 1))
  }

  /** The two children, at height h, of node k one level up. */
  function Kids(node: NodeHash, leaves: seq<Hash>, h: nat, k: nat): (Hash, Hash) {
    (At(node, leaves, h, 2 * k), At(node, leaves, h, 2 * k + 1))
  }

  /** `merkle_root`: the apex of the tree just high enough to hold the leaves. */
  function MerkleRoot(node: NodeHash, leaves: seq<Hash>): Hash {
    if leaves == [] then ZERO else At(node, leaves, Depth(|leaves|), 0)
  }

  /** Every child pair hashed while computing `At(node, leaves, h, k)` lies in `s`. */
  ghost predicate Within(s: iset<(Hash, Hash)>, node: NodeHash, leaves: seq<Hash>, h: nat, k: nat)
    decreases h
  {
    h == 0 ||
    (&& Kids(node, leaves, h - 1, k) in s
     && Within(s, node, leaves, h - 1, 2 * k)
     && Within(s, node, leaves, h - 1, 2 * k + 1))
  }

  ghost predicate RootWithin(s: iset<(Hash, Hash)>, node: NodeHash, leaves: seq<Hash>) {
    Within(s, node, leaves, Depth(|leaves|), 0)
  }

  lemma {:induction false} NodeBinds(node: NodeHash, s: iset<(Hash, Hash)>, x: (Hash, Hash), y: (Hash, Hash))
    requires Binding(node, s) && x in s && y in s && node(x.0, x.1) == node(y.0, y.1)
    ensures x == y
  {
    assert SameParent(node, x, y);
  }

  lemma Halve(c: nat)
    ensures c == 2 * (c / 2) || c == 2 * (c / 2) + 1
  {
  }

  /** Node c of height h lies below node `apex` of height d. */
  predicate Below(h: nat, c: nat, d: nat, apex: nat) {
    h <= d && Shift(c, d - h) == apex
  }

  lemma {:induction false} WithinBelow(
    s: iset<(Hash, Hash)>, node: NodeHash, leaves: seq<Hash>, h: nat, c: nat, d: nat, apex: nat)
    requires Below(h, c, d, apex) && Within(s, node, leaves, d, apex)
    ensures Within(s, node, leaves, h, c)
    decreases d - h
  {
    if h < d {
      WithinBelow(s, node, leaves, h + 1, c / 2, d, apex);
      Halve(c);
    }
  }

  lemma {:induction false} KidsAgree(node: NodeHash, s: iset<(Hash, Hash)>, x: seq<Hash>, y: seq<Hash>, h: nat, k: nat)
    requires Binding(node, s)
    requires Within(s, node, x, h + 1, k) && Within(s, node, y, h + 1, k)
    requires At(node, x, h + 1, k) == At(node, y, h + 1, k)
    ensures At(node, x, h, 2 * k) == At(node, y, h, 2 * k)
    ensures At(node, x, h, 2 * k + 1) == At(node, y, h, 2 * k + 1)
  {
    NodeBinds(node, s, Kids(node, x, h, k), Kids(node, y, h, k));
  }

  /** Trees that agree at a node agree everywhere below it. */
  lemma {:induction false} AgreeBelow(
    node: NodeHash, s: iset<(Hash, Hash)>, x: seq<Hash>, y: seq<Hash>, h: nat, c: nat, d: nat, apex: nat)
    requires Below(h, c, d, apex) && Binding(node, s)
    requires Within(s, node, x, d, apex) && Within(s, node, y, d, apex)
    requires At(node, x, d, apex) == At(node, y, d, apex)
    ensures At(node, x, h, c) == At(node, y, h, c)
    decreases d - h
  {
    if h < d {
      AgreeBelow(node, s, x, y, h + 1, c / 2, d, apex);
      AgreeOneBelow(node, s, x, y, h, c, d, apex);
    }
  }

  lemma {:induction false} AgreeOneBelow(
    node: NodeHash, s: iset<(Hash, Hash)>, x: seq<Hash>, y: seq<Hash>, h: nat, c: nat, d: nat, apex: nat)
    requires h < d && Below(h + 1, c / 2, d, apex) && Binding(node, s)
    requires Within(s, node, x, d, apex) && Within(s, node, y, d, apex)
    requires At(node, x, h + 1, c / 2) == At(node, y, h + 1, c / 2)
    ensures At(node, x, h, c) == At(node, y, h, c)
  {
    WithinBelow(s, node, x, h + 1, c / 2, d, apex);
    WithinBelow(s, node, y, h + 1, c / 2, d, apex);
    KidsAgree(node, s, x, y, h, c / 2);
    Halve(c);
  }

  /** Two leaf lists of one length with the same Merkle root are the same list. */
  lemma {:induction false} MerkleRootBinds(node: NodeHash, s: iset<(Hash, Hash)>, x: seq<Hash>, y: seq<Hash>)
    requires |x| == |y|
    requires Binding(node, s) && RootWithin(s, node, x) && RootWithin(s, node, y)
    requires MerkleRoot(node, x) == MerkleRoot(node, y)
    ensures x == y
  {
    forall i | 0 <= i < |x| ensures x[i] == y[i] {
      ShiftZero(i, Depth(|x|));
      AgreeBelow(node, s, x, y, 0, i, Depth(|x|), 0);
    }
  }

  // ---- inclusion proofs ----------------------------------------------------

  /** `i ^ 1`. */
  function Sibling(i: nat): nat { if i % 2 == 0 then i + 1 else i - 1 }

  /** The siblings met from node c at height h up to the apex at height d. */
  function Siblings(node: NodeHash, leaves: seq<Hash>, h: nat, c: nat, d: nat): (p: seq<Hash>)
    requires h <= d
    ensures |p| == d - h
    decreases d - h
  {
    if h == d then [] else [At(node, leaves, h, Sibling(c))] + Siblings(node, leaves, h + 1, c / 2, d)
  }

  /** The reference inclusion proof of leaf i in the tree of depth d. */
  function ProofOf(node: NodeHash, leaves: seq<Hash>, d: nat, i: nat): (p: seq<Hash>)
    ensures |p| == d
  {
    Siblings(node, leaves, 0, i, d)
  }

  function Ordered(idx: nat, current: Hash, sibling: Hash): (Hash, Hash) {
    if idx % 2 == 0 then (current, sibling) else (sibling, current)
  }

  /** The hash reached by climbing `proof` from `leaf`. */
  function Climb(node: NodeHash, index: nat, leaf: Hash, proof: seq<Hash>): Hash
    decreases |proof|
  {
    if proof == [] then leaf
    else
      var pair := Ordered(index, leaf, proof[0]);
      Climb(node, index / 2, node(pair.0, pair.1), proof[1..])
  }

  /** Every child pair hashed while climbing lies in `s`. */
  ghost predicate ClimbWithin(s: iset<(Hash, Hash)>, node: NodeHash, index: nat, leaf: Hash, proof: seq<Hash>)
    decreases |proof|
  {
    proof == [] ||
    (var pair := Ordered(index, leaf, proof[0]);
     pair in s && ClimbWithin(s, node, index / 2, node(pair.0, pair.1), proof[1..]))
  }

  /** What `verify_proof` accepts. */
  predicate Accepts(node: NodeHash, root: Hash, index: nat, leaf: Hash, proof: seq<Hash>) {
    |proof| < USIZE_BITS && index < Pow2(|proof|) && Climb(node, index, leaf, proof) == root
  }

  /** `verify_proof`: total on adversarial input. */
  method VerifyProof(node: NodeHash, root: Hash, index: nat, leaf: Hash, proof: seq<Hash>) returns (ok: bool)
    ensures ok <==> Accepts(node, root, index, leaf, proof)
  {
    if |proof| >= USIZE_BITS { return false; }
    ShiftZero(index, |proof|);
    if Shift(index, |proof|) != 0 { return false; }
    var current, idx := leaf, index;
    for k := 0 to |proof|
      invariant Climb(node, idx, current, proof[k..]) == Climb(node, index, leaf, proof)
    {
      assert proof[k..][1..] == proof[k + 1..];
      current := if idx % 2 == 0 then node(current, proof[k]) else node(proof[k], current);
      idx := idx / 2;
    }
    ok := current == root;
  }

  /** A node and its sibling, in order, are the children of node c / 2 one level up. */
  lemma {:induction false} SiblingPair(node: NodeHash, leaves: seq<Hash>, h: nat, c: nat)
    ensures Ordered(c, At(node, leaves, h, c), At(node, leaves, h, Sibling(c)))
         == Kids(node, leaves, h, c / 2)
  {
    Halve(c);
  }

  /** Climbing the siblings of any node reaches its ancestor at height d. */
  lemma {:induction false} ClimbSiblings(node: NodeHash, leaves: seq<Hash>, h: nat, c: nat, d: nat, apex: nat)
    requires Below(h, c, d, apex)
    ensures Climb(node, c, At(node, leaves, h, c), Siblings(node, leaves, h, c, d)) == At(node, leaves, d, apex)
    decreases d - h
  {
    if h < d {
      SiblingPair(node, leaves, h, c);
      ClimbSiblings(node, leaves, h + 1, c / 2, d, apex);
      assert Siblings(node, leaves, h, c, d)[1..] == Siblings(node, leaves, h + 1, c / 2, d);
    }
  }

  /** ... and hashes only child pairs of the tree. */
  lemma {:induction false} ClimbSiblingsWithin(
    s: iset<(Hash, Hash)>, node: NodeHash, leaves: seq<Hash>, h: nat, c: nat, d: nat, apex: nat)
    requires Below(h, c, d, apex) && Within(s, node, leaves, d, apex)
    ensures ClimbWithin(s, node, c, At(node, leaves, h, c), Siblings(node, leaves, h, c, d))
    decreases d - h
  {
    if h < d {
      WithinBelow(s, node, leaves, h + 1, c / 2, d, apex);
      SiblingPair(node, leaves, h, c);
      ClimbSiblingsWithin(s, node, leaves, h + 1, c / 2, d, apex);
      assert Siblings(node, leaves, h, c, d)[1..] == Siblings(node, leaves, h + 1, c / 2, d);
    }
  }

  /** Completeness: the reference proof of every leaf is accepted against the root. */
  lemma {:induction false} ProofComplete(node: NodeHash, leaves: seq<Hash>, d: nat, i: nat)
    requires i < Pow2(d) && d < USIZE_BITS
    ensures Accepts(node, At(node, leaves, d, 0), i, Leaf(leaves, i), ProofOf(node, leaves, d, i))
  {
    ShiftZero(i, d);
    ClimbSiblings(node, leaves, 0, i, d, 0);
  }

  /** One root, index and depth admit one leaf and one sibling list. */
  lemma {:induction false} TwoProofsAgree(
    node: NodeHash, s: iset<(Hash, Hash)>, i: nat, x: Hash, p: seq<Hash>, y: Hash, q: seq<Hash>)
    requires |p| == |q| && Binding(node, s)
    requires ClimbWithin(s, node, i, x, p) && ClimbWithin(s, node, i, y, q)
    requires Climb(node, i, x, p) == Climb(node, i, y, q)
    ensures x == y && p == q
    decreases |p|
  {
    if p != [] {
      var a, b := Ordered(i, x, p[0]), Ordered(i, y, q[0]);
      TwoProofsAgree(node, s, i / 2, node(a.0, a.1), p[1..], node(b.0, b.1), q[1..]);
      NodeBinds(node, s, a, b);
      assert p == [p[0]] + p[1..] && q == [q[0]] + q[1..];
    }
  }

  /** Binding: an accepted proof of the tree's depth carries exactly leaf i and exactly its siblings. */
  lemma {:induction false} ProofBinds(
    node: NodeHash, s: iset<(Hash, Hash)>, leaves: seq<Hash>, i: nat, leaf: Hash, proof: seq<Hash>)
    requires Binding(node, s) && Within(s, node, leaves, |proof|, 0) && ClimbWithin(s, node, i, leaf, proof)
    requires Accepts(node, At(node, leaves, |proof|, 0), i, leaf, proof)
    ensures leaf == Leaf(leaves, i) && proof == ProofOf(node, leaves, |proof|, i)
  {
    var d := |proof|;
    ShiftZero(i, d);
    ClimbSiblings(node, leaves, 0, i, d, 0);
    ClimbSiblingsWithin(s, node, leaves, 0, i, d, 0);
    TwoProofsAgree(node, s, i, leaf, proof, Leaf(leaves, i), ProofOf(node, leaves, d, i));
  }

  // ---- the heap array ------------------------------------------------------

  predicate ConsistentAt(node: NodeHash, nodes: seq<Hash>, j: nat)
    requires 2 * j + 1 < |nodes|
  {
    nodes[j] == node(nodes[2 * j], nodes[2 * j + 1])
  }

  /** Every internal node is the hash of its two children. */
  predicate Consistent(node: NodeHash, nodes: seq<Hash>, capacity: nat)
    requires |nodes| == 2 * capacity
  {
    forall j | 1 <= j < capacity :: ConsistentAt(node, nodes, j)
  }

  /** In a consistent array over the 2^d leaves `leaves`, slot 2^(d-h) + k holds node k of height h. */
  lemma {:induction false} SlotIsNode(node: NodeHash, nodes: seq<Hash>, leaves: seq<Hash>, d: nat, h: nat, k: nat)
    requires |nodes| == 2 * Pow2(d) && Consistent(node, nodes, Pow2(d)) && nodes[Pow2(d)..] == leaves
    requires h <= d && k < Pow2(d - h)
    ensures Pow2(d - h) + k < |nodes| && nodes[Pow2(d - h) + k] == At(node, leaves, h, k)
    decreases h
  {
    var w := Pow2(d - h);
    if h == 0 {
      assert nodes[Pow2(d)..][k] == nodes[Pow2(d) + k];
    } else {
      SlotIsNode(node, nodes, leaves, d, h - 1, 2 * k);
      SlotIsNode(node, nodes, leaves, d, h - 1, 2 * k + 1);
      assert Pow2(d - (h - 1)) == 2 * w;
      Pow2Monotone(d - h, d - 1);
      assert ConsistentAt(node, nodes, w + k);
    }
  }

  /** The siblings read off the heap array, from slot i up to the root. */
  function HeapSiblings(nodes: seq<Hash>, i: nat): seq<Hash>
    requires 1 <= i < |nodes| && |nodes| % 2 == 0
  {
    if i == 1 then [] else [nodes[Sibling(i)]] + HeapSiblings(nodes, i / 2)
  }

  lemma SiblingShift(w: nat, c: nat)
    requires c < 2 * w
    ensures Sibling(2 * w + c) == 2 * w + Sibling(c) && (2 * w + c) / 2 == w + c / 2
    ensures Sibling(c) < 2 * w && c / 2 < w
  {
  }

  /** They are the reference siblings. */
  lemma {:induction false} HeapSiblingsMatch(
    node: NodeHash, nodes: seq<Hash>, leaves: seq<Hash>, d: nat, h: nat, c: nat)
    requires |nodes| == 2 * Pow2(d) && Consistent(node, nodes, Pow2(d)) && nodes[Pow2(d)..] == leaves
    requires h <= d && c < Pow2(d - h)
    ensures Pow2(d - h) + c < |nodes|
    ensures HeapSiblings(nodes, Pow2(d - h) + c) == Siblings(node, leaves, h, c, d)
    decreases d - h
  {
    SlotIsNode(node, nodes, leaves, d, h, c);
    if h < d {
      SiblingSlot(node, nodes, leaves, d, h, c);
      HeapSiblingsMatch(node, nodes, leaves, d, h + 1, c / 2);
    }
  }

  /** One step of the walk: the sibling's slot holds the reference sibling, and the parent's is half as far. */
  lemma {:induction false} SiblingSlot(
    node: NodeHash, nodes: seq<Hash>, leaves: seq<Hash>, d: nat, h: nat, c: nat)
    requires |nodes| == 2 * Pow2(d) && Consistent(node, nodes, Pow2(d)) && nodes[Pow2(d)..] == leaves
    requires h < d && c < Pow2(d - h)
    ensures c / 2 < Pow2(d - (h + 1)) && (Pow2(d - h) + c) / 2 == Pow2(d - (h + 1)) + c / 2
    ensures Sibling(Pow2(d - h) + c) < |nodes| && Sibling(c) < Pow2(d - h)
    ensures nodes[Sibling(Pow2(d - h) + c)] == At(node, leaves, h, Sibling(c))
  {
    var w := Pow2(d - h - 1);
    SiblingShift(w, c);
    SlotIsNode(node, nodes, leaves, d, h, Sibling(c));
  }

  lemma AppendOne(p: seq<Hash>, x: Hash, q: seq<Hash>)
    ensures p + ([x] + q) == (p + [x]) + q
  {
  }

  /** Whether heap node j lies on the path from node i to the root (i included). */
  predicate OnPath(j: nat, i: nat) {
    j == i || (i > j && OnPath(j, i / 2))
  }

  /** The loop of `proof`: climb from slot `start`, collecting siblings. */
  method SiblingsOf(nodes: array<Hash>, start: nat) returns (proof: seq<Hash>)
    requires 1 <= start < nodes.Length && nodes.Length % 2 == 0
    ensures proof == HeapSiblings(nodes[..], start)
  {
    ghost var heap := nodes[..];
    proof := [];
    var i := start;
    while i > 1
      invariant 1 <= i < nodes.Length
      invariant proof + HeapSiblings(heap, i) == HeapSiblings(heap, start)
      decreases i
    {
      AppendOne(proof, nodes[Sibling(i)], HeapSiblings(heap, i / 2));
      proof := proof + [nodes[Sibling(i)]];
      i := i / 2;
    }
    assert proof + [] == proof;
  }

  class MerkleTree {
    const node: NodeHash
    var capacity: nat
    // Level order: index 1 is the root, the leaves are [capacity, 2 * capacity).
    var nodes: array<Hash>

    ghost predicate Shape()
      reads this
    {
      IsPow2(capacity) && nodes.Length == 2 * capacity
    }

    ghost predicate Valid()
      reads this, nodes
    {
      Shape() && Consistent(node, nodes[..], capacity)
    }

    ghost function Leaves(): (s: seq<Hash>)
      requires Shape()
      reads this, nodes
      ensures |s| == capacity
    {
      nodes[capacity..]
    }

    /** `MerkleTree::new`. */
    constructor (node: NodeHash, minLeaves: nat)
      ensures Valid() && fresh(nodes) && this.node == node
      ensures capacity == Capacity(minLeaves) && Leaves() == Zeros(capacity)
    {
      this.node := node;
      capacity := Capacity(minLeaves);
      nodes := new Hash[2 * Capacity(minLeaves)](_ => ZERO);
      new;
      DepthOfPow2(Depth(minLeaves));
      RecomputeAllParents();
      assert Leaves() == Zeros(capacity);
    }

    /** `MerkleTree::from_leaves`: one bottom-up pass. */
    constructor FromLeaves(node: NodeHash, leaves: seq<Hash>)
      ensures Valid() && fresh(nodes) && this.node == node
      ensures capacity == Capacity(|leaves|) && Leaves() == Padded(leaves)
    {
      this.node := node;
      var c := Capacity(|leaves|);
      capacity := c;
      nodes := new Hash[2 * c](_ => ZERO);
      new;
      DepthOfPow2(Depth(|leaves|));
      CopyLeaves(leaves);
      assert Leaves() == Padded(leaves);
      RecomputeAllParents();
    }

    /** The leaves go in from the first slot on; the rest stay zero. */
    method CopyLeaves(leaves: seq<Hash>)
      requires |leaves| <= capacity && nodes.Length == 2 * capacity
      requires forall k | 0 <= k < nodes.Length :: nodes[k] == ZERO
      modifies nodes
      ensures nodes[capacity..] == leaves + Zeros(capacity - |leaves|)
    {
      for i := 0 to |leaves|
        invariant nodes[capacity..capacity + i] == leaves[..i]
        invariant forall k | capacity + i <= k < nodes.Length :: nodes[k] == ZERO
      {
        nodes[capacity + i] := leaves[i];
        assert nodes[capacity..capacity + i + 1] == leaves[..i] + [leaves[i]];
      }
      assert leaves[..|leaves|] == leaves;
      assert nodes[capacity..] == nodes[capacity..capacity + |leaves|] + nodes[capacity + |leaves|..];
      assert nodes[capacity + |leaves|..] == Zeros(capacity - |leaves|);
    }

    /** Rebuild every internal node from the current leaves. */
    method RecomputeAllParents()
      requires Shape()
      modifies nodes
      ensures Valid() && Leaves() == old(Leaves())
    {
      var j := capacity;
      while j > 1
        invariant 1 <= j <= capacity
        invariant nodes[capacity..] == old(nodes[capacity..])
        invariant forall k | j <= k < capacity :: ConsistentAt(node, nodes[..], k)
      {
        j := j - 1;
        ghost var before := nodes[..];
        nodes[j] := node(nodes[2 * j], nodes[2 * j + 1]);
        assert nodes[..] == before[j := nodes[j]];
        forall k | j < k < capacity ensures ConsistentAt(node, nodes[..], k) {
          assert ConsistentAt(node, before, k);
        }
      }
    }

    /** `set`: write one leaf and repair only its path to the root. */
    method Set(index: nat, leaf: Hash) returns (r: Result<(), MerkleError>)
      requires Valid()
      modifies nodes
      ensures Valid()
      ensures r == (if index < capacity then Ok(()) else Err(IndexOutOfRange))
      ensures Leaves() == if index < capacity then old(Leaves())[index := leaf] else old(Leaves())
    {
      if index >= capacity { return Err(IndexOutOfRange); }
      var i := capacity + index;
      ghost var start := nodes[..];
      nodes[i] := leaf;
      assert nodes[..] == start[i := leaf];
      forall j | 1 <= j < capacity && !OnPath(j, i / 2)
        ensures ConsistentAt(node, nodes[..], j)
      {
        assert ConsistentAt(node, start, j);
      }
      i := i / 2;
      while i >= 1
        invariant 0 <= i < capacity
        invariant nodes[capacity..] == start[capacity..][index := leaf]
        invariant forall j | 1 <= j < capacity && !OnPath(j, i) :: ConsistentAt(node, nodes[..], j)
        decreases i
      {
        ghost var before := nodes[..];
        nodes[i] := node(nodes[2 * i], nodes[2 * i + 1]);
        assert nodes[..] == before[i := nodes[i]];
        forall j | 1 <= j < capacity && !OnPath(j, i / 2)
          ensures ConsistentAt(node, nodes[..], j)
        {
          if j != i { assert !OnPath(j, i); assert ConsistentAt(node, before, j); }
        }
        i := i / 2;
      }
      return Ok(());
    }

    /** `root`. */
    method Root() returns (h: Hash)
      requires Valid()
      ensures h == At(node, Leaves(), Depth(capacity), 0)
    {
      SlotIsNode(node, nodes[..], Leaves(), Depth(capacity), Depth(capacity), 0);
      h := nodes[1];
    }

    /** `validate_invariants`: accepts exactly the well-shaped, fully consistent representations. */
    method ValidateInvariants() returns (r: Result<(), MerkleError>)
      ensures r == Ok(()) <==> Valid() && 2 * capacity < USIZE_SIZE
      ensures r == Err(InconsistentInternalNode) <==>
              Shape() && 2 * capacity < USIZE_SIZE && !Consistent(node, nodes[..], capacity)
    {
      if 2 * capacity >= USIZE_SIZE { return Err(InvalidRepresentation); }
      if capacity == 0 || !IsPow2(capacity) || nodes.Length != 2 * capacity {
        return Err(InvalidRepresentation);
      }
      var j := capacity;
      while j > 1
        invariant 1 <= j <= capacity
        invariant forall k | j <= k < capacity :: ConsistentAt(node, nodes[..], k)
      {
        j := j - 1;
        if nodes[j] != node(nodes[2 * j], nodes[2 * j + 1]) {
          assert !ConsistentAt(node, nodes[..], j);
          return Err(InconsistentInternalNode);
        }
      }
      return Ok(());
    }

    /** `proof`: the siblings read off the cached nodes are the reference proof of the leaf. */
    method Proof(index: nat) returns (r: Result<seq<Hash>, MerkleError>)
      requires Valid()
      ensures index >= capacity ==> r == Err(IndexOutOfRange)
      ensures index < capacity ==> r == Ok(ProofOf(node, Leaves(), Depth(capacity), index))
    {
      if index >= capacity { return Err(IndexOutOfRange); }
      var proof := SiblingsOf(nodes, capacity + index);
      HeapSiblingsMatch(node, nodes[..], Leaves(), Depth(capacity), 0, index);
      return Ok(proof);
    }
  }

  /** Padding leaves with zeros changes no node of the infinite zero-padded tree. */
  lemma {:induction false} PaddedAt(node: NodeHash, leaves: seq<Hash>, h: nat, k: nat)
    ensures At(node, Padded(leaves), h, k) == At(node, leaves, h, k)
    decreases h
  {
    if h > 0 {
      PaddedAt(node, leaves, h - 1, 2 * k);
      PaddedAt(node, leaves, h - 1, 2 * k + 1);
    }
  }

  /** `merkle_root`: the one-pass tree's root is the recursive root of the leaves. */
  method RootOf(node: NodeHash, leaves: seq<Hash>) returns (root: Hash)
    ensures root == MerkleRoot(node, leaves)
  {
    if leaves == [] { return ZERO; }
    var tree := new MerkleTree.FromLeaves(node, leaves);
    root := tree.Root();
    DepthOfPow2(Depth(|leaves|));
    PaddedAt(node, leaves, Depth(|leaves|), 0);
  }

  // ---- whole runs ----------------------------------------------------------

  /** The leaves after a run of `set` calls; out-of-range calls change nothing. */
  function AfterSets(leaves: seq<Hash>, sets: seq<(nat, Hash)>): (s: seq<Hash>)
    ensures |s| == |leaves|
  {
    if sets == [] then leaves
    else
      var before := AfterSets(leaves, sets[..|sets| - 1]);
      var (index, leaf) := sets[|sets| - 1];
      if index < |leaves| then before[index := leaf] else before
  }

  /** After any run of `set` calls on a fresh tree, the incrementally repaired root is the from-scratch
      root of the current leaves, validation accepts the tree, and every leaf's proof verifies. */
  method RunSets(node: NodeHash, minLeaves: nat, sets: seq<(nat, Hash)>, index: nat)
    returns (root: Hash, valid: bool, proved: bool)
    requires 2 * Capacity(minLeaves) < USIZE_SIZE && index < Capacity(minLeaves)
    ensures root == MerkleRoot(node, AfterSets(Zeros(Capacity(minLeaves)), sets))
    ensures valid && proved
  {
    var tree := new MerkleTree(node, minLeaves);
    for k := 0 to |sets|
      invariant tree.Valid() && fresh(tree.nodes)
      invariant tree.capacity == Capacity(minLeaves) && tree.node == node
      invariant tree.Leaves() == AfterSets(Zeros(Capacity(minLeaves)), sets[..k])
    {
      assert sets[..k + 1][..k] == sets[..k];
      var _ := tree.Set(sets[k].0, sets[k].1);
    }
    assert sets[..|sets|] == sets;
    root := tree.Root();
    ghost var d := Depth(minLeaves);
    DepthOfPow2(d);
    var check := tree.ValidateInvariants();
    valid := check == Ok(());
    var p := tree.Proof(index);
    assert d < USIZE_BITS by {
      if d >= USIZE_BITS { Pow2Monotone(USIZE_BITS, d); Pow2Of64(); }
    }
    ProofComplete(node, tree.Leaves(), d, index);
    proved := VerifyProof(node, root, index, tree.nodes[tree.capacity + index], p.value);
  }
}

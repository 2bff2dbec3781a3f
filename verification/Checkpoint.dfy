/** Checkpoint headers, quorum-verified checkpoints and their ancestry chains. */
module Checkpoint {
  import opened Bytes
  import opened Hashing
  import opened Merkle
  import opened Quorum

  const DOMAIN_CHECKPOINT := Ascii("dexos:checkpoint:header:v1")

  datatype Header = Header(
    epoch: u64, shard: u16, first: u64, last: u64,
    previousRoot: Hash, newRoot: Hash, commandRoot: Hash, executionRoot: Hash, oracleRoot: Hash,
    timestamp: u64)
  datatype Checkpoint = Checkpoint(header: Header, qc: QuorumCertificate)

  datatype CheckpointError =
    | RangeOutOfOrder(first: u64, last: u64) | LengthMismatch(width: u64, items: nat)
    | HashMismatch | QuorumFailed | BrokenAncestry

  // ---- header hashing ------------------------------------------------------

  function HeaderFields(h: Header): seq<seq<byte>> {
    [LE(h.epoch, 8), LE(h.shard, 2), LE(h.first, 8), LE(h.last, 8),
     AsBytes(h.previousRoot), AsBytes(h.newRoot), AsBytes(h.commandRoot), AsBytes(h.executionRoot),
     AsBytes(h.oracleRoot), LE(h.timestamp, 8)]
  }

  function HeaderPreimage(h: Header): seq<byte> { Preimage(DOMAIN_CHECKPOINT, Concat(HeaderFields(h))) }

  /** `CheckpointHeader::hash`. */
  function HeaderHash(sha: Sha, h: Header): Hash { HashDomain(sha, DOMAIN_CHECKPOINT, Concat(HeaderFields(h))) }

  /** The hashed bytes determine every header field. */
  lemma {:induction false} HeaderPreimageInjective(a: Header, b: Header)
    requires HeaderPreimage(a) == HeaderPreimage(b)
    ensures a == b
  {
    var x, y := HeaderFields(a), HeaderFields(b);
    PreimageInjective(DOMAIN_CHECKPOINT, Concat(x), DOMAIN_CHECKPOINT, Concat(y));
    ConcatFields(x, y);
    FieldsInjective(a, b);
  }

  lemma {:induction false} FieldsInjective(a: Header, b: Header)
    requires HeaderFields(a) == HeaderFields(b)
    ensures a == b
  {
    var x, y := HeaderFields(a), HeaderFields(b);
    assert x[0] == y[0] && x[1] == y[1] && x[2] == y[2] && x[3] == y[3] && x[9] == y[9];
    Pow256Widths();
    LEInjective(a.epoch, b.epoch, 8);
    LEInjective(a.shard, b.shard, 2);
    LEInjective(a.first, b.first, 8);
    LEInjective(a.last, b.last, 8);
    LEInjective(a.timestamp, b.timestamp, 8);
    assert x[4] == y[4] && x[5] == y[5] && x[6] == y[6] && x[7] == y[7] && x[8] == y[8];
    AsBytesInjective(a.previousRoot, b.previousRoot);
    AsBytesInjective(a.newRoot, b.newRoot);
    AsBytesInjective(a.commandRoot, b.commandRoot);
    AsBytesInjective(a.executionRoot, b.executionRoot);
    AsBytesInjective(a.oracleRoot, b.oracleRoot);
  }

  lemma {:induction false} HeaderHashBinds(sha: Sha, preimages: iset<seq<byte>>, a: Header, b: Header)
    requires CollisionFree(sha, preimages) && HeaderPreimage(a) in preimages && HeaderPreimage(b) in preimages
    requires HeaderHash(sha, a) == HeaderHash(sha, b)
    ensures a == b
  {
    assert Collide(sha, HeaderPreimage(a), HeaderPreimage(b));
    HeaderPreimageInjective(a, b);
  }

  // ---- building ------------------------------------------------------------

  /** The per-item hashes an executed range is committed from. */
  datatype Items = Items(commands: seq<Hash>, executions: seq<Hash>)

  /** `build_checkpoint_header`: `shape` supplies every field but the two roots computed here. */
  function Build(sha: Sha, shape: Header, items: Items): (r: Result<Header, CheckpointError>)
    ensures r.Ok? <==>
            && shape.first <= shape.last && shape.last - shape.first + 1 < U64_SIZE
            && |items.commands| == |items.executions| == shape.last - shape.first + 1
    ensures r.Ok? ==>
              && r.value.commandRoot == MerkleRoot(HashNode(sha), items.commands)
              && r.value.executionRoot == MerkleRoot(HashNode(sha), items.executions)
              && shape == r.value.(commandRoot := shape.commandRoot, executionRoot := shape.executionRoot)
  {
    if shape.last < shape.first then Err(RangeOutOfOrder(shape.first, shape.last))
    else
      var width := shape.last - shape.first + 1;
      if width >= U64_SIZE then Err(RangeOutOfOrder(shape.first, shape.last))
      else if |items.commands| != width then Err(LengthMismatch(width, |items.commands|))
      else if |items.executions| != width then Err(LengthMismatch(width, |items.executions|))
      else Ok(shape.(commandRoot := MerkleRoot(HashNode(sha), items.commands),
                     executionRoot := MerkleRoot(HashNode(sha), items.executions)))
  }

  /** Every node hashed while building is hashed from one of these preimages. */
  ghost predicate ItemsWithin(preimages: iset<seq<byte>>, sha: Sha, items: Items) {
    && RootWithin(NodePairs(preimages), HashNode(sha), items.commands)
    && RootWithin(NodePairs(preimages), HashNode(sha), items.executions)
  }

  /** Equal checkpoint hashes come from the same command and execution lists, element by element: the
      header fixes the range, the range fixes the list lengths, and equal-length lists with equal roots
      are equal. */
  lemma {:induction false} BuildBinds(
    sha: Sha, preimages: iset<seq<byte>>,
    shape1: Header, items1: Items, shape2: Header, items2: Items)
    requires CollisionFree(sha, preimages)
    requires ItemsWithin(preimages, sha, items1) && ItemsWithin(preimages, sha, items2)
    requires Build(sha, shape1, items1).Ok? && Build(sha, shape2, items2).Ok?
    requires HeaderPreimage(Build(sha, shape1, items1).value) in preimages
    requires HeaderPreimage(Build(sha, shape2, items2).value) in preimages
    requires HeaderHash(sha, Build(sha, shape1, items1).value) == HeaderHash(sha, Build(sha, shape2, items2).value)
    ensures Build(sha, shape1, items1) == Build(sha, shape2, items2) && items1 == items2
  {
    HeaderHashBinds(sha, preimages, Build(sha, shape1, items1).value, Build(sha, shape2, items2).value);
    HashNodeBinds(sha, preimages);
    MerkleRootBinds(HashNode(sha), NodePairs(preimages), items1.commands, items2.commands);
    MerkleRootBinds(HashNode(sha), NodePairs(preimages), items1.executions, items2.executions);
  }

  // ---- verification --------------------------------------------------------

  /** What `verify_checkpoint` accepts. */
  ghost predicate Verified(sha: Sha, valid: Verifier, set_: ValidatorSet, cp: Checkpoint) {
    && cp.header.first <= cp.header.last
    && cp.qc.message == HeaderHash(sha, cp.header)
    && Certified(valid, set_.validators, set_.threshold, cp.qc)
  }

  /** `verify_checkpoint`. */
  method VerifyCheckpoint(sha: Sha, valid: Verifier, set_: ValidatorSet, cp: Checkpoint)
    returns (r: Result<(), CheckpointError>)
    requires ValidSet(set_)
    ensures r.Ok? <==> Verified(sha, valid, set_, cp)
    ensures cp.header.last < cp.header.first ==> r == Err(RangeOutOfOrder(cp.header.first, cp.header.last))
    ensures cp.header.first <= cp.header.last && cp.qc.message != HeaderHash(sha, cp.header) ==> r == Err(HashMismatch)
  {
    if cp.header.last < cp.header.first { return Err(RangeOutOfOrder(cp.header.first, cp.header.last)); }
    if cp.qc.message != HeaderHash(sha, cp.header) { return Err(HashMismatch); }
    var q := Verify(valid, set_, cp.qc);
    if q.Err? { return Err(QuorumFailed); }
    return Ok(());
  }

  /** `links_to`: same shard, adjoining state roots, contiguous ranges with no wrap-around. */
  predicate LinksTo(child: Header, parent: Header) {
    && child.shard == parent.shard
    && child.previousRoot == parent.newRoot
    && CheckedAdd(parent.last, 1) == Some(child.first)
  }

  ghost predicate ChainVerified(sha: Sha, valid: Verifier, set_: ValidatorSet, chain: seq<Checkpoint>) {
    && (forall i | 0 <= i < |chain| :: Verified(sha, valid, set_, chain[i]))
    && Linked(chain)
  }

  predicate Linked(chain: seq<Checkpoint>) {
    forall i | 0 < i < |chain| :: LinksTo(chain[i].header, chain[i - 1].header)
  }

  /** `verify_chain`. */
  method VerifyChain(sha: Sha, valid: Verifier, set_: ValidatorSet, chain: seq<Checkpoint>)
    returns (r: Result<(), CheckpointError>)
    requires ValidSet(set_)
    ensures r.Ok? <==> ChainVerified(sha, valid, set_, chain)
  {
    for i := 0 to |chain|
      invariant forall k | 0 <= k < i :: Verified(sha, valid, set_, chain[k])
      invariant forall k | 0 < k < i :: LinksTo(chain[k].header, chain[k - 1].header)
    {
      var one := VerifyCheckpoint(sha, valid, set_, chain[i]);
      if one.Err? { return one; }
      if i > 0 && !LinksTo(chain[i].header, chain[i - 1].header) { return Err(BrokenAncestry); }
    }
    return Ok(());
  }

  // ---- accepted chains tile their interval ---------------------------------

  ghost predicate Covers(cp: Checkpoint, n: int) { cp.header.first <= n <= cp.header.last }

  ghost predicate InOrder(chain: seq<Checkpoint>) {
    forall i | 0 <= i < |chain| :: chain[i].header.first <= chain[i].header.last
  }

  lemma {:induction false} EarlierEndsBefore(chain: seq<Checkpoint>, i: nat, j: nat)
    requires Linked(chain) && InOrder(chain) && i < j < |chain|
    ensures chain[i].header.last < chain[j].header.first
    decreases j - i
  {
    assert LinksTo(chain[j].header, chain[j - 1].header);
    if i + 1 < j { EarlierEndsBefore(chain, i, j - 1); }
  }

  lemma {:induction false} FindCover(chain: seq<Checkpoint>, n: int) returns (k: nat)
    requires Linked(chain) && InOrder(chain) && chain != []
    requires chain[0].header.first <= n <= chain[|chain| - 1].header.last
    ensures k < |chain| && Covers(chain[k], n)
    decreases |chain|
  {
    var top := |chain| - 1;
    if chain[top].header.first <= n {
      k := top;
    } else {
      assert top > 0;
      assert LinksTo(chain[top].header, chain[top - 1].header);
      k := FindCover(chain[..top], n);
    }
  }

  /** An accepted chain tiles its interval: every sequence between its ends lies in exactly one
      checkpoint, ranges never overlap or wrap, and one shard's state roots connect end to end. */
  lemma {:induction false} ChainTiles(sha: Sha, valid: Verifier, set_: ValidatorSet, chain: seq<Checkpoint>, n: int)
    requires ChainVerified(sha, valid, set_, chain) && chain != []
    ensures chain[0].header.first <= n <= chain[|chain| - 1].header.last <==>
            exists k | 0 <= k < |chain| :: Covers(chain[k], n)
    ensures forall i, j | 0 <= i < |chain| && 0 <= j < |chain| && Covers(chain[i], n) && Covers(chain[j], n) :: i == j
    ensures forall i | 0 <= i < |chain| :: chain[i].header.shard == chain[0].header.shard
    ensures forall i | 0 < i < |chain| :: chain[i].header.previousRoot == chain[i - 1].header.newRoot
  {
    assert forall i | 0 <= i < |chain| ::
        Verified(sha, valid, set_, chain[i]) ==> chain[i].header.first <= chain[i].header.last;
    assert InOrder(chain);
    if chain[0].header.first <= n <= chain[|chain| - 1].header.last { var k := FindCover(chain, n); }
    forall i, j | 0 <= i < |chain| && 0 <= j < |chain| && Covers(chain[i], n) && Covers(chain[j], n) ensures i == j {
      if i < j { EarlierEndsBefore(chain, i, j); } else if j < i { EarlierEndsBefore(chain, j, i); }
    }
    forall k | 0 <= k < |chain| && Covers(chain[k], n)
      ensures chain[0].header.first <= n <= chain[|chain| - 1].header.last
    {
      if k > 0 { EarlierEndsBefore(chain, 0, k); }
      if k < |chain| - 1 { EarlierEndsBefore(chain, k, |chain| - 1); }
    }
    forall i | 0 <= i < |chain| ensures chain[i].header.shard == chain[0].header.shard { SameShard(chain, i); }
    forall i | 0 < i < |chain| ensures chain[i].header.previousRoot == chain[i - 1].header.newRoot {
      assert LinksTo(chain[i].header, chain[i - 1].header);
    }
  }

  lemma {:induction false} SameShard(chain: seq<Checkpoint>, i: nat)
    requires Linked(chain) && i < |chain|
    ensures chain[i].header.shard == chain[0].header.shard
  {
    if i > 0 {
      assert LinksTo(chain[i].header, chain[i - 1].header);
      SameShard(chain, i - 1);
    }
  }

  /** Item i of a chain is checkpoint i built from its own lists. */
  ghost predicate BuiltFrom(sha: Sha, chain: seq<Checkpoint>, items: seq<Items>) {
    && |items| == |chain|
    && forall i | 0 <= i < |chain| :: Build(sha, chain[i].header, items[i]) == Ok(chain[i].header)
  }

  /** Two chains with pairwise equal checkpoint hashes commit to one command and execution history. */
  lemma {:induction false} ChainHistoriesAgree(
    sha: Sha, preimages: iset<seq<byte>>,
    a: seq<Checkpoint>, itemsA: seq<Items>, b: seq<Checkpoint>, itemsB: seq<Items>)
    requires CollisionFree(sha, preimages)
    requires |a| == |b| && BuiltFrom(sha, a, itemsA) && BuiltFrom(sha, b, itemsB)
    requires forall i | 0 <= i < |a| ::
               HeaderPreimage(a[i].header) in preimages && ItemsWithin(preimages, sha, itemsA[i])
    requires forall i | 0 <= i < |b| ::
               HeaderPreimage(b[i].header) in preimages && ItemsWithin(preimages, sha, itemsB[i])
    requires forall i | 0 <= i < |a| :: HeaderHash(sha, a[i].header) == HeaderHash(sha, b[i].header)
    ensures itemsA == itemsB && forall i | 0 <= i < |a| :: a[i].header == b[i].header
  {
    forall i | 0 <= i < |a| ensures itemsA[i] == itemsB[i] && a[i].header == b[i].header {
      assert HeaderHash(sha, a[i].header) == HeaderHash(sha, b[i].header);
      BuildBinds(sha, preimages, a[i].header, itemsA[i], b[i].header, itemsB[i]);
    }
  }

  // ---- forks are accountable -----------------------------------------------

  /** `detect_checkpoint_fork`. */
  predicate DetectFork(a: Header, b: Header) {
    a.shard == b.shard && a.first == b.first && a.last == b.last && a.newRoot != b.newRoot
  }

  /** Two checkpoints that both pass the committee's L-set and fork were signed, both, by members of
      weight at least W - 2B >= 3B + 1: more than the tolerated B signed two different hashes. */
  lemma {:induction false} ForkExposesDoubleSigners(
    sha: Sha, valid: Verifier, c: Committee, preimages: iset<seq<byte>>, a: Checkpoint, b: Checkpoint)
    requires ValidCommittee(c) && CollisionFree(sha, preimages)
    requires HeaderPreimage(a.header) in preimages && HeaderPreimage(b.header) in preimages
    requires Verified(sha, valid, c.finalizeSet, a) && Verified(sha, valid, c.finalizeSet, b)
    requires DetectFork(a.header, b.header)
    ensures a.qc.message != b.qc.message
    ensures var both := Signers(a.qc.signerBitmap) * Signers(b.qc.signerBitmap);
            && Weight(c.Members(), both) >= c.W() - 2 * c.byzantine >= 3 * c.byzantine + 1
            && forall i | i in both :: Signed(valid, c.Members(), a.qc, i) && Signed(valid, c.Members(), b.qc, i)
  {
    if a.qc.message == b.qc.message { HeaderHashBinds(sha, preimages, a.header, b.header); }
    RivalCertificates(valid, c, a.qc, b.qc);
  }
}

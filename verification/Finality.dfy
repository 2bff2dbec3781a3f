/** Structural deposit finality: a hash-linked header run plus a Merkle inclusion proof. */
module Finality {
  import opened Bytes
  import opened Hashing
  import opened Merkle
  import opened CustodyCodec
  import opened Custody

  /** `ChainCommit`: a chain's header and leaf hashing rules. */
  datatype Commit = Commit(headerHash: BlockHeader -> Hash, depositLeaf: DepositEvent -> Hash)

  predicate Follows(commit: Commit, parent: BlockHeader, child: BlockHeader) {
    CheckedAdd(parent.number, 1) == Some(child.number) && child.parentHash == commit.headerHash(parent)
  }

  predicate HashLinked(commit: Commit, headers: seq<BlockHeader>) {
    forall i | 0 < i < |headers| :: Follows(commit, headers[i - 1], headers[i])
  }

  predicate Included(commit: Commit, node: NodeHash, event: DepositEvent, w: FinalityWitness)
    requires w.headers != []
  {
    Accepts(node, w.headers[0].inclusionRoot, w.inclusion.leafIndex, commit.depositLeaf(event), w.inclusion.siblings)
  }

  /** What `verify_finality` accepts. */
  predicate Accepted(commit: Commit, node: NodeHash, event: DepositEvent, w: FinalityWitness, min: u32) {
    && w.headers != [] && HashLinked(commit, w.headers)
    && Included(commit, node, event, w)
    && min <= |w.headers| < U32_SIZE
  }

  /** `verify_finality`. */
  method VerifyFinality(commit: Commit, node: NodeHash, event: DepositEvent, w: FinalityWitness, min: u32)
    returns (r: Result<FinalityProof, AdapterError>)
    ensures r.Ok? <==> Accepted(commit, node, event, w, min)
    ensures r.Ok? ==>
              var base, head := w.headers[0], w.headers[|w.headers| - 1];
              && r.value.blockNumber == base.number && r.value.blockHash == commit.headerHash(base)
              && r.value.confirmations == head.number - base.number + 1
    ensures w.headers == [] || !HashLinked(commit, w.headers) ==> r == Err(InvalidWitness)
    ensures w.headers != [] && HashLinked(commit, w.headers) && !Included(commit, node, event, w) ==>
              r == Err(InvalidInclusion)
    ensures w.headers != [] && HashLinked(commit, w.headers) && Included(commit, node, event, w) ==>
              |w.headers| < min ==> r == Err(NotFinal(|w.headers|, min))
  {
    if w.headers == [] { return Err(InvalidWitness); }
    for i := 1 to |w.headers|
      invariant forall k | 0 < k < i :: Follows(commit, w.headers[k - 1], w.headers[k])
    {
      if !Follows(commit, w.headers[i - 1], w.headers[i]) { return Err(InvalidWitness); }
    }
    var included := VerifyProof(
      node, w.headers[0].inclusionRoot, w.inclusion.leafIndex, commit.depositLeaf(event), w.inclusion.siblings);
    if !included { return Err(InvalidInclusion); }
    if |w.headers| >= U32_SIZE { return Err(InvalidWitness); }
    if |w.headers| < min { return Err(NotFinal(|w.headers|, min)); }
    DerivedDepth(commit, w.headers);
    return Ok(FinalityProof(w.headers[0].number, commit.headerHash(w.headers[0]), |w.headers|));
  }

  /** On a linked run the header count is the height difference plus one. */
  lemma {:induction false} DerivedDepth(commit: Commit, headers: seq<BlockHeader>)
    requires HashLinked(commit, headers) && headers != []
    ensures |headers| == headers[|headers| - 1].number - headers[0].number + 1
  {
    var last := |headers| - 1;
    if last > 0 {
      assert Follows(commit, headers[last - 1], headers[last]);
      DerivedDepth(commit, headers[..last]);
    }
  }

  // ---- binding -------------------------------------------------------------

  ghost predicate SameHeaderHash(commit: Commit, x: BlockHeader, y: BlockHeader) {
    commit.headerHash(x) == commit.headerHash(y)
  }

  ghost predicate SameLeaf(commit: Commit, x: DepositEvent, y: DepositEvent) {
    commit.depositLeaf(x) == commit.depositLeaf(y)
  }

  /** The chain's hashing has no collision among these headers and these events. */
  ghost predicate CommitBinds(commit: Commit, headers: iset<BlockHeader>, events: iset<DepositEvent>) {
    && (forall x, y {:trigger SameHeaderHash(commit, x, y)} |
          x in headers && y in headers && SameHeaderHash(commit, x, y) :: x == y)
    && (forall x, y {:trigger SameLeaf(commit, x, y)} |
          x in events && y in events && SameLeaf(commit, x, y) :: x == y)
  }

  ghost predicate Among(run: seq<BlockHeader>, headers: iset<BlockHeader>) {
    forall i | 0 <= i < |run| :: run[i] in headers
  }

  /** Runs ending in headers of equal hash agree as far back as both reach. */
  lemma {:induction false} RunsAgree(
    commit: Commit, headers: iset<BlockHeader>, events: iset<DepositEvent>, a: seq<BlockHeader>, b: seq<BlockHeader>)
    requires CommitBinds(commit, headers, events) && Among(a, headers) && Among(b, headers)
    requires a != [] && |a| <= |b| && HashLinked(commit, a) && HashLinked(commit, b)
    requires SameHeaderHash(commit, a[|a| - 1], b[|b| - 1])
    ensures a == b[|b| - |a|..]
    decreases |a|
  {
    var m, n := |a| - 1, |b| - 1;
    assert a[m] == b[n];
    if m > 0 {
      assert Follows(commit, a[m - 1], a[m]) && Follows(commit, b[n - 1], b[n]);
      RunsAgree(commit, headers, events, a[..m], b[..n]);
      assert a == a[..m] + [a[m]] && b[|b| - |a|..] == b[..n][n - m..] + [b[n]];
    } else {
      assert b[n..] == [b[n]];
    }
  }

  /** Everything hashed to check this deposit: headers, leaf and inclusion path. */
  ghost predicate Presented(
    commit: Commit, node: NodeHash, headers: iset<BlockHeader>, events: iset<DepositEvent>, pairs: iset<(Hash, Hash)>,
    e: DepositEvent, w: FinalityWitness)
  {
    && Among(w.headers, headers) && e in events
    && ClimbWithin(pairs, node, w.inclusion.leafIndex, commit.depositLeaf(e), w.inclusion.siblings)
  }

  /** The shorter run is a suffix of the longer.  With equal base numbers the bases are one block, and equal
      leaf index and proof depth then force one and the same deposit event and sibling list. */
  ghost predicate OneDeposit(e: DepositEvent, w: FinalityWitness, f: DepositEvent, v: FinalityWitness)
    requires w.headers != [] && v.headers != []
  {
    && (|w.headers| <= |v.headers| ==> w.headers == v.headers[|v.headers| - |w.headers|..])
    && (|v.headers| <= |w.headers| ==> v.headers == w.headers[|w.headers| - |v.headers|..])
    && (w.headers[0].number == v.headers[0].number ==> w.headers == v.headers)
    && (w.headers[0].number == v.headers[0].number && w.inclusion.leafIndex == v.inclusion.leafIndex
        && |w.inclusion.siblings| == |v.inclusion.siblings| ==>
          e == f && w.inclusion == v.inclusion)
  }

  /** Two accepted witnesses whose heads have equal hashes, on any chain whose hashing binds. */
  lemma {:induction false} FinalityBinds(
    commit: Commit, node: NodeHash, headers: iset<BlockHeader>, events: iset<DepositEvent>, pairs: iset<(Hash, Hash)>,
    e: DepositEvent, w: FinalityWitness, min: u32, f: DepositEvent, v: FinalityWitness, min': u32)
    requires CommitBinds(commit, headers, events) && Binding(node, pairs)
    requires Presented(commit, node, headers, events, pairs, e, w)
    requires Presented(commit, node, headers, events, pairs, f, v)
    requires Accepted(commit, node, e, w, min) && Accepted(commit, node, f, v, min')
    requires SameHeaderHash(commit, w.headers[|w.headers| - 1], v.headers[|v.headers| - 1])
    ensures OneDeposit(e, w, f, v)
  {
    if |w.headers| <= |v.headers| { RunsAgree(commit, headers, events, w.headers, v.headers); }
    else { RunsAgree(commit, headers, events, v.headers, w.headers); }
    if w.headers[0].number == v.headers[0].number {
      DerivedDepth(commit, w.headers);
      DerivedDepth(commit, v.headers);
      if w.inclusion.leafIndex == v.inclusion.leafIndex && |w.inclusion.siblings| == |v.inclusion.siblings| {
        TwoProofsAgree(node, pairs, w.inclusion.leafIndex,
          commit.depositLeaf(e), w.inclusion.siblings, commit.depositLeaf(f), v.inclusion.siblings);
        assert SameLeaf(commit, e, f);
      }
    }
  }

  // ---- the two chains ------------------------------------------------------

  const DOMAIN_SVM_HEADER := Ascii("dexos.svm.header")
  const DOMAIN_SVM_LEAF := Ascii("dexos.svm.deposit.leaf")

  /** What is hashed of a header and of an event. */
  function HeaderBytes(h: BlockHeader): seq<byte> { BLOCK_HEADER.write(h) }

  function EventBytes(e: DepositEvent): seq<byte> { Event(UNBOUNDED).write(e) }

  /** `SvmCommit`: domain-separated SHA-256 over the encodings. */
  function SvmCommit(sha: Sha): Commit {
    Commit((h: BlockHeader) => HashDomain(sha, DOMAIN_SVM_HEADER, HeaderBytes(h)),
           (e: DepositEvent) => HashDomain(sha, DOMAIN_SVM_LEAF, EventBytes(e)))
  }

  /** `EvmCommit`: keccak over the three header fields, and over the event's encoding. */
  function EvmCommit(keccak: Sha): Commit {
    Commit((h: BlockHeader) => keccak(BE(h.number, 8) + (AsBytes(h.parentHash) + AsBytes(h.inclusionRoot))),
           (e: DepositEvent) => keccak(EventBytes(e)))
  }

  /** Both chains hash a header from its wire encoding. */
  lemma {:induction false} EvmHeaderBytes(keccak: Sha, h: BlockHeader)
    ensures EvmCommit(keccak).headerHash(h) == keccak(HeaderBytes(h))
  {
    HeaderShape(h);
  }

  lemma {:induction false} HeaderBytesInjective(x: BlockHeader, y: BlockHeader)
    requires HeaderBytes(x) == HeaderBytes(y)
    ensures x == y
  {
    HeaderExact();
    HeaderShape(x);
    HeaderShape(y);
    WriteInjective(BLOCK_HEADER, x, y);
  }

  lemma {:induction false} EventBytesInjective(x: DepositEvent, y: DepositEvent)
    requires |x.tx| < U64_SIZE && |y.tx| < U64_SIZE && EventBytes(x) == EventBytes(y)
    ensures x == y
  {
    EventExact(UNBOUNDED);
    EventShape(UNBOUNDED, x);
    EventShape(UNBOUNDED, y);
    WriteInjective(Event(UNBOUNDED), x, y);
  }

  /** The headers and events hashed from these preimages. */
  ghost function SvmHeaders(preimages: iset<seq<byte>>): iset<BlockHeader> {
    iset h: BlockHeader | Preimage(DOMAIN_SVM_HEADER, HeaderBytes(h)) in preimages
  }

  ghost function SvmEvents(preimages: iset<seq<byte>>): iset<DepositEvent> {
    iset e: DepositEvent | |e.tx| < U64_SIZE && Preimage(DOMAIN_SVM_LEAF, EventBytes(e)) in preimages
  }

  ghost function EvmHeaders(preimages: iset<seq<byte>>): iset<BlockHeader> {
    iset h: BlockHeader | HeaderBytes(h) in preimages
  }

  ghost function EvmEvents(preimages: iset<seq<byte>>): iset<DepositEvent> {
    iset e: DepositEvent | |e.tx| < U64_SIZE && EventBytes(e) in preimages
  }

  lemma {:induction false} SvmBinds(sha: Sha, preimages: iset<seq<byte>>)
    requires CollisionFree(sha, preimages)
    ensures CommitBinds(SvmCommit(sha), SvmHeaders(preimages), SvmEvents(preimages))
  {
    var c := SvmCommit(sha);
    forall x, y | x in SvmHeaders(preimages) && y in SvmHeaders(preimages) && SameHeaderHash(c, x, y) ensures x == y {
      var p, q := Preimage(DOMAIN_SVM_HEADER, HeaderBytes(x)), Preimage(DOMAIN_SVM_HEADER, HeaderBytes(y));
      assert Collide(sha, p, q);
      PreimageInjective(DOMAIN_SVM_HEADER, HeaderBytes(x), DOMAIN_SVM_HEADER, HeaderBytes(y));
      HeaderBytesInjective(x, y);
    }
    forall x, y | x in SvmEvents(preimages) && y in SvmEvents(preimages) && SameLeaf(c, x, y) ensures x == y {
      var p, q := Preimage(DOMAIN_SVM_LEAF, EventBytes(x)), Preimage(DOMAIN_SVM_LEAF, EventBytes(y));
      assert Collide(sha, p, q);
      PreimageInjective(DOMAIN_SVM_LEAF, EventBytes(x), DOMAIN_SVM_LEAF, EventBytes(y));
      EventBytesInjective(x, y);
    }
  }

  lemma {:induction false} EvmBinds(keccak: Sha, preimages: iset<seq<byte>>)
    requires CollisionFree(keccak, preimages)
    ensures CommitBinds(EvmCommit(keccak), EvmHeaders(preimages), EvmEvents(preimages))
  {
    var c := EvmCommit(keccak);
    forall x, y | x in EvmHeaders(preimages) && y in EvmHeaders(preimages) && SameHeaderHash(c, x, y) ensures x == y {
      EvmHeaderBytes(keccak, x);
      EvmHeaderBytes(keccak, y);
      assert Collide(keccak, HeaderBytes(x), HeaderBytes(y));
      HeaderBytesInjective(x, y);
    }
    forall x, y | x in EvmEvents(preimages) && y in EvmEvents(preimages) && SameLeaf(c, x, y) ensures x == y {
      assert Collide(keccak, EventBytes(x), EventBytes(y));
      EventBytesInjective(x, y);
    }
  }

  /** Everything hashed to check the deposit is hashed from these preimages. */
  ghost predicate SvmPresented(sha: Sha, preimages: iset<seq<byte>>, e: DepositEvent, w: FinalityWitness) {
    Presented(SvmCommit(sha), HashNode(sha), SvmHeaders(preimages), SvmEvents(preimages), NodePairs(preimages), e, w)
  }

  ghost predicate EvmPresented(
    keccak: Sha, hashed: iset<seq<byte>>, sha: Sha, preimages: iset<seq<byte>>, e: DepositEvent, w: FinalityWitness)
  {
    Presented(EvmCommit(keccak), HashNode(sha), EvmHeaders(hashed), EvmEvents(hashed), NodePairs(preimages), e, w)
  }

  /** On the SVM chain, a hash without collisions among the bytes hashed is all it takes. */
  lemma {:induction false} SvmFinalityBinds(
    sha: Sha, preimages: iset<seq<byte>>,
    e: DepositEvent, w: FinalityWitness, min: u32, f: DepositEvent, v: FinalityWitness, min': u32)
    requires CollisionFree(sha, preimages)
    requires SvmPresented(sha, preimages, e, w) && SvmPresented(sha, preimages, f, v)
    requires Accepted(SvmCommit(sha), HashNode(sha), e, w, min) && Accepted(SvmCommit(sha), HashNode(sha), f, v, min')
    requires SameHeaderHash(SvmCommit(sha), w.headers[|w.headers| - 1], v.headers[|v.headers| - 1])
    ensures OneDeposit(e, w, f, v)
  {
    SvmBinds(sha, preimages);
    HashNodeBinds(sha, preimages);
    FinalityBinds(SvmCommit(sha), HashNode(sha), SvmHeaders(preimages), SvmEvents(preimages), NodePairs(preimages),
      e, w, min, f, v, min');
  }

  /** The same on the EVM chain, whose headers and leaves are hashed with keccak and whose tree nodes are not. */
  lemma {:induction false} EvmFinalityBinds(
    keccak: Sha, hashed: iset<seq<byte>>, sha: Sha, preimages: iset<seq<byte>>,
    e: DepositEvent, w: FinalityWitness, min: u32, f: DepositEvent, v: FinalityWitness, min': u32)
    requires CollisionFree(keccak, hashed) && CollisionFree(sha, preimages)
    requires EvmPresented(keccak, hashed, sha, preimages, e, w) && EvmPresented(keccak, hashed, sha, preimages, f, v)
    requires Accepted(EvmCommit(keccak), HashNode(sha), e, w, min)
    requires Accepted(EvmCommit(keccak), HashNode(sha), f, v, min')
    requires SameHeaderHash(EvmCommit(keccak), w.headers[|w.headers| - 1], v.headers[|v.headers| - 1])
    ensures OneDeposit(e, w, f, v)
  {
    EvmBinds(keccak, hashed);
    HashNodeBinds(sha, preimages);
    FinalityBinds(EvmCommit(keccak), HashNode(sha), EvmHeaders(hashed), EvmEvents(hashed), NodePairs(preimages),
      e, w, min, f, v, min');
  }
}

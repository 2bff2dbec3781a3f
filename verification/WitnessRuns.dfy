/** Whole runs of one `WitnessCollector` under one committee: what every interleaving of admissions,
    prunings and certifications keeps, with every witness allowed to be dishonest. */
module WitnessRuns {
  import opened Bytes
  import opened Hashing
  import opened Quorum
  import opened Witness

  datatype Op = Add(receipt: Receipt) | Prune(sequence: u64) | Query(digest: Hash)

  function Apply(env: Env, s: Collector, op: Op): Collector {
    match op
    case Add(r) => if Refusal(env, s, r).None? then Admitted(env.sha, s, r) else s
    case Prune(sequence) => Pruned(s, sequence)
    case Query(_) => s
  }

  /** The collector after a run. */
  function After(env: Env, s: Collector, ops: seq<Op>): Collector {
    if ops == [] then s else Apply(env, After(env, s, ops[..|ops| - 1]), ops[|ops| - 1])
  }

  /** Every receipt admitted during a run, pruned since or not. */
  function History(env: Env, s: Collector, ops: seq<Op>): set<Receipt> {
    if ops == [] then {}
    else
      var init, op := ops[..|ops| - 1], ops[|ops| - 1];
      History(env, s, init) + NewReceipts(env, After(env, s, init), op)
  }

  function NewReceipts(env: Env, s: Collector, op: Op): set<Receipt> {
    if op.Add? && Refusal(env, s, op.receipt).None? then {op.receipt} else {}
  }

  // ---- the run invariant ---------------------------------------------------

  ghost predicate Backs(env: Env, r: Receipt, d: Hash, w: nat) {
    r.signer == w && Digest(env.sha, r.claim) == d
  }

  /** Every retained entry was once admitted. */
  ghost predicate EntriesBacked(env: Env, s: Collector, hist: set<Receipt>) {
    forall d, w | d in s.receipts && w in s.receipts[d] :: exists r | r in hist :: Backs(env, r, d, w)
  }

  ghost predicate StartBacked(env: Env, s: Collector, hist: set<Receipt>, d: Hash)
    requires d in s.starts
  {
    exists r | r in hist :: Digest(env.sha, r.claim) == d && s.starts[d] == r.claim.first
  }

  ghost predicate StartsBacked(env: Env, s: Collector, hist: set<Receipt>) {
    forall d | d in s.starts :: StartBacked(env, s, hist, d)
  }

  /** An admitted receipt at or above the watermark is still held, and its root still indexed. */
  ghost predicate Kept(env: Env, s: Collector, r: Receipt) {
    r.claim.first >= s.watermark ==>
      && ReceiptKey(r) in s.seen && s.seen[ReceiptKey(r)] == r.claim.root
      && r.signer in PerDigestOf(s, Digest(env.sha, r.claim))
  }

  /** No witness was ever admitted for two roots of one range: pruning cannot make the collector
      forget a range and then readmit it. */
  ghost predicate NoEquivocation(hist: set<Receipt>) {
    forall r, r' | r in hist && r' in hist && ReceiptKey(r) == ReceiptKey(r') :: r.claim.root == r'.claim.root
  }

  ghost predicate AllKept(env: Env, s: Collector, hist: set<Receipt>) {
    forall r | r in hist :: Kept(env, s, r)
  }

  ghost predicate Inv(env: Env, s: Collector, hist: set<Receipt>) {
    && Valid(s) && AdmittedUnder(env, s)
    && EntriesBacked(env, s, hist) && StartsBacked(env, s, hist)
    && AllKept(env, s, hist) && NoEquivocation(hist)
  }

  /** The preimages of every receipt of a history are in play. */
  ghost predicate InPlay(preimages: iset<seq<byte>>, hist: set<Receipt>) {
    forall r | r in hist :: ClaimPreimage(r.claim) in preimages
  }

  lemma AddKeeps(env: Env, s: Collector, r: Receipt, x: Receipt)
    requires Refusal(env, s, r).None? && (x == r || Kept(env, s, x))
    ensures Kept(env, Admitted(env.sha, s, r), x)
  {
  }

  lemma {:induction false} AddAllKept(env: Env, s: Collector, hist: set<Receipt>, r: Receipt)
    requires Refusal(env, s, r).None? && AllKept(env, s, hist)
    ensures AllKept(env, Admitted(env.sha, s, r), hist + {r})
  {
    forall x | x in hist + {r} ensures Kept(env, Admitted(env.sha, s, r), x) {
      AddKeeps(env, s, r, x);
    }
  }

  lemma {:induction false} AddNoEquivocation(env: Env, s: Collector, hist: set<Receipt>, r: Receipt)
    requires Refusal(env, s, r).None? && NoEquivocation(hist) && AllKept(env, s, hist)
    ensures NoEquivocation(hist + {r})
  {
    forall x | x in hist && ReceiptKey(x) == ReceiptKey(r) ensures x.claim.root == r.claim.root {
      assert Kept(env, s, x);
    }
  }

  lemma {:induction false} AddEntriesBacked(env: Env, s: Collector, hist: set<Receipt>, r: Receipt)
    requires EntriesBacked(env, s, hist)
    ensures EntriesBacked(env, Admitted(env.sha, s, r), hist + {r})
  {
    var s' := Admitted(env.sha, s, r);
    forall e, w | e in s'.receipts && w in s'.receipts[e]
      ensures exists x | x in hist + {r} :: Backs(env, x, e, w)
    {
      if e in s.receipts && w in s.receipts[e] {
        var x :| x in hist && Backs(env, x, e, w);
        assert x in hist + {r};
      } else {
        assert Backs(env, r, e, w);
      }
    }
  }

  lemma {:induction false} AddAdmittedUnder(env: Env, s: Collector, r: Receipt)
    requires AdmittedUnder(env, s) && Refusal(env, s, r).None?
    ensures AdmittedUnder(env, Admitted(env.sha, s, r))
  {
    var s' := Admitted(env.sha, s, r);
    forall e, w | e in s'.receipts && w in s'.receipts[e] ensures SignedBy(env, e, w, s'.receipts[e][w]) {
      if e in s.receipts && w in s.receipts[e] { assert SignedBy(env, e, w, s.receipts[e][w]); }
    }
  }

  lemma {:induction false} AddStartsBacked(env: Env, s: Collector, hist: set<Receipt>, r: Receipt)
    requires StartsBacked(env, s, hist)
    ensures StartsBacked(env, Admitted(env.sha, s, r), hist + {r})
  {
    var s' := Admitted(env.sha, s, r);
    forall e | e in s'.starts ensures StartBacked(env, s', hist + {r}, e) {
      if e in s.starts {
        assert StartBacked(env, s, hist, e);
        var x :| x in hist && Digest(env.sha, x.claim) == e && s.starts[e] == x.claim.first;
        assert x in hist + {r};
      } else {
        assert r in hist + {r};
      }
    }
  }

  lemma {:induction false} InvAdd(env: Env, s: Collector, hist: set<Receipt>, r: Receipt)
    requires Inv(env, s, hist) && Refusal(env, s, r).None?
    ensures Inv(env, Admitted(env.sha, s, r), hist + {r})
  {
    AdmittedValid(env, s, r);
    AddAdmittedUnder(env, s, r);
    AddEntriesBacked(env, s, hist, r);
    AddStartsBacked(env, s, hist, r);
    AddNoEquivocation(env, s, hist, r);
    AddAllKept(env, s, hist, r);
  }

  lemma {:induction false} InvPrune(
    env: Env, s: Collector, hist: set<Receipt>, sequence: u64, preimages: iset<seq<byte>>)
    requires Inv(env, s, hist) && CollisionFree(env.sha, preimages) && InPlay(preimages, hist)
    ensures Inv(env, Pruned(s, sequence), hist)
  {
    PrunedValid(s, sequence);
    var s' := Pruned(s, sequence);
    forall d | d in s'.starts ensures StartBacked(env, s', hist, d) { assert StartBacked(env, s, hist, d); }
    forall r | r in hist ensures Kept(env, s', r) {
      PruneKeeps(env, s, hist, sequence, preimages, r);
    }
    forall d, w | d in s'.receipts && w in s'.receipts[d]
      ensures SignedBy(env, d, w, s'.receipts[d][w]) && exists r | r in hist :: Backs(env, r, d, w)
    {
      assert w in s.receipts[d] && SignedBy(env, d, w, s.receipts[d][w]);
    }
  }

  /** Pruning never drops a range that starts at or above the new watermark. */
  lemma {:induction false} PruneKeeps(
    env: Env, s: Collector, hist: set<Receipt>, sequence: u64, preimages: iset<seq<byte>>, r: Receipt)
    requires Indexed(s) && StartsBacked(env, s, hist) && Kept(env, s, r) && r in hist
    requires CollisionFree(env.sha, preimages) && InPlay(preimages, hist)
    ensures Kept(env, Pruned(s, sequence), r)
  {
    var d := Digest(env.sha, r.claim);
    if r.claim.first >= Max(s.watermark, sequence) { StartOfKept(env, s, hist, preimages, r); }
  }

  lemma {:induction false} StartOfKept(
    env: Env, s: Collector, hist: set<Receipt>, preimages: iset<seq<byte>>, r: Receipt)
    requires Indexed(s) && StartsBacked(env, s, hist) && Kept(env, s, r) && r in hist
    requires CollisionFree(env.sha, preimages) && InPlay(preimages, hist) && r.claim.first >= s.watermark
    ensures Digest(env.sha, r.claim) in s.starts && s.starts[Digest(env.sha, r.claim)] == r.claim.first
  {
    var d := Digest(env.sha, r.claim);
    assert d in s.receipts.Keys && d in s.starts.Keys;
    assert StartBacked(env, s, hist, d);
    var x :| x in hist && Digest(env.sha, x.claim) == d && s.starts[d] == x.claim.first;
    DigestBinds(env.sha, preimages, x.claim, r.claim);
  }

  lemma {:induction false} InvStep(env: Env, s: Collector, hist: set<Receipt>, op: Op, preimages: iset<seq<byte>>)
    requires Inv(env, s, hist) && CollisionFree(env.sha, preimages) && InPlay(preimages, hist)
    ensures Inv(env, Apply(env, s, op), hist + NewReceipts(env, s, op))
  {
    var s', more := Apply(env, s, op), NewReceipts(env, s, op);
    if more == {} { assert hist + more == hist; }
    match op
    case Add(r) => if Refusal(env, s, r).None? { InvAdd(env, s, hist, r); } else { assert s' == s; }
    case Prune(sequence) => InvPrune(env, s, hist, sequence, preimages);
    case Query(_) => assert s' == s;
  }

  lemma {:induction false} HistoryGrows(env: Env, s: Collector, ops: seq<Op>, k: nat)
    requires k <= |ops|
    ensures History(env, s, ops[..k]) <= History(env, s, ops)
    decreases |ops| - k
  {
    if k == |ops| {
      assert ops[..k] == ops;
    } else {
      HistoryGrows(env, s, ops, k + 1);
      assert ops[..k + 1][..k] == ops[..k];
    }
  }

  /** Every reachable state satisfies the invariant. */
  lemma {:induction false} RunInvariant(
    env: Env, watermark: u64, horizon: u64, cap: nat, ops: seq<Op>, preimages: iset<seq<byte>>)
    requires CollisionFree(env.sha, preimages)
    requires InPlay(preimages, History(env, WithWindow(watermark, horizon, cap), ops))
    ensures var s := WithWindow(watermark, horizon, cap);
            Inv(env, After(env, s, ops), History(env, s, ops))
    decreases |ops|
  {
    if ops != [] {
      var n := |ops| - 1;
      var s := WithWindow(watermark, horizon, cap);
      HistoryGrows(env, s, ops, n);
      RunInvariant(env, watermark, horizon, cap, ops[..n], preimages);
      InvStep(env, After(env, s, ops[..n]), History(env, s, ops[..n]), ops[n], preimages);
    }
  }

  // ---- what follows over whole runs ----------------------------------------

  /** At any point of any run the witnesses held for a claim are exactly those ever admitted for it,
      unless its range starts below the watermark, when none is held. */
  lemma {:induction false} HeldWitnesses(
    env: Env, s: Collector, hist: set<Receipt>, preimages: iset<seq<byte>>, c: Claim, w: nat)
    requires Inv(env, s, hist) && CollisionFree(env.sha, preimages) && InPlay(preimages, hist)
    requires ClaimPreimage(c) in preimages
    ensures w in PerDigestOf(s, Digest(env.sha, c)) <==>
            c.first >= s.watermark && exists r | r in hist :: r.signer == w && r.claim == c
  {
    var d := Digest(env.sha, c);
    if w in PerDigestOf(s, d) {
      var r :| r in hist && Backs(env, r, d, w);
      DigestBinds(env.sha, preimages, r.claim, c);
      assert d in s.starts && StartBacked(env, s, hist, d);
      var x :| x in hist && Digest(env.sha, x.claim) == d && s.starts[d] == x.claim.first;
      DigestBinds(env.sha, preimages, x.claim, c);
    }
    if c.first >= s.watermark && exists r | r in hist :: r.signer == w && r.claim == c {
      var r :| r in hist && r.signer == w && r.claim == c;
      assert Kept(env, s, r);
    }
  }

  /** Two rival claims of one range, certifiable against two histories of one run, would need two
      disjoint finalize quorums. */
  lemma {:induction false} RivalRootsEqual(
    env: Env, s1: Collector, h1: set<Receipt>, s2: Collector, h2: set<Receipt>, hist: set<Receipt>,
    preimages: iset<seq<byte>>, c1: Claim, c2: Claim)
    requires ValidCommittee(env.committee) && CollisionFree(env.sha, preimages) && InPlay(preimages, hist)
    requires Inv(env, s1, h1) && Inv(env, s2, h2) && h1 <= hist && h2 <= hist && NoEquivocation(hist)
    requires ClaimPreimage(c1) in preimages && ClaimPreimage(c2) in preimages
    requires (c1.shard, c1.first, c1.last) == (c2.shard, c2.first, c2.last)
    requires Certifiable(env, s1, Digest(env.sha, c1)) && Certifiable(env, s2, Digest(env.sha, c2))
    ensures c1.root == c2.root
  {
    var members := env.committee.Members();
    var a, b := s1.receipts[Digest(env.sha, c1)].Keys, s2.receipts[Digest(env.sha, c2)].Keys;
    FinalizeQuorumsIntersect(env.committee, a, b);
    var w := PositiveWeightMember(members, a * b);
    HeldWitnesses(env, s1, h1, preimages, c1, w);
    HeldWitnesses(env, s2, h2, preimages, c2, w);
    var r1 :| r1 in h1 && r1.signer == w && r1.claim == c1;
    var r2 :| r2 in h2 && r2.signer == w && r2.claim == c2;
    assert r1 in hist && r2 in hist && ReceiptKey(r1) == ReceiptKey(r2);
  }

  /** Safety over whole runs: a collector never certifies two roots for one range, even if every
      witness is dishonest and however admissions, prunings and queries interleave. */
  lemma {:induction false} NeverTwoRoots(
    env: Env, watermark: u64, horizon: u64, cap: nat, ops: seq<Op>, preimages: iset<seq<byte>>,
    i: nat, c1: Claim, j: nat, c2: Claim)
    requires ValidCommittee(env.committee) && CollisionFree(env.sha, preimages)
    requires InPlay(preimages, History(env, WithWindow(watermark, horizon, cap), ops))
    requires ClaimPreimage(c1) in preimages && ClaimPreimage(c2) in preimages
    requires (c1.shard, c1.first, c1.last) == (c2.shard, c2.first, c2.last)
    requires i <= |ops| && j <= |ops|
    requires Certifiable(env, After(env, WithWindow(watermark, horizon, cap), ops[..i]), Digest(env.sha, c1))
    requires Certifiable(env, After(env, WithWindow(watermark, horizon, cap), ops[..j]), Digest(env.sha, c2))
    ensures c1.root == c2.root
  {
    var s := WithWindow(watermark, horizon, cap);
    HistoryGrows(env, s, ops, i);
    HistoryGrows(env, s, ops, j);
    RunInvariant(env, watermark, horizon, cap, ops, preimages);
    RunInvariant(env, watermark, horizon, cap, ops[..i], preimages);
    RunInvariant(env, watermark, horizon, cap, ops[..j], preimages);
    RivalRootsEqual(env, After(env, s, ops[..i]), History(env, s, ops[..i]),
                    After(env, s, ops[..j]), History(env, s, ops[..j]), History(env, s, ops), preimages, c1, c2);
  }

  /** Across collectors: certificates for rival roots expose witnesses of weight at least W - 2B >= 3B + 1
      that signed both, so they cannot both exist while at most B does. */
  lemma {:induction false} RivalCollectors(
    env: Env, preimages: iset<seq<byte>>, c1: Claim, qc1: QuorumCertificate, c2: Claim, qc2: QuorumCertificate)
    requires ValidCommittee(env.committee) && CollisionFree(env.sha, preimages)
    requires ClaimPreimage(c1) in preimages && ClaimPreimage(c2) in preimages
    requires qc1.message == Digest(env.sha, c1) && qc2.message == Digest(env.sha, c2) && c1.root != c2.root
    requires Certified(env.valid, env.committee.Members(), env.committee.L(), qc1)
    requires Certified(env.valid, env.committee.Members(), env.committee.L(), qc2)
    ensures qc1.message != qc2.message
    ensures var both := Signers(qc1.signerBitmap) * Signers(qc2.signerBitmap);
            && Weight(env.committee.Members(), both) >= 3 * env.committee.byzantine + 1
            && forall i | i in both ::
                 && Signed(env.valid, env.committee.Members(), qc1, i)
                 && Signed(env.valid, env.committee.Members(), qc2, i)
  {
    if qc1.message == qc2.message { DigestBinds(env.sha, preimages, c1, c2); }
    RivalCertificates(env.valid, env.committee, qc1, qc2);
  }
}

/** Witness receipts and the bounded `WitnessCollector` that turns them into quorum certificates. */
module Witness {
  import opened Bytes
  import opened Hashing
  import opened Quorum

  const DOMAIN_WITNESS := Ascii("dexos:checkpoint:witness:v1")

  /** What a witness attests: this range of this shard executed to `root`. */
  datatype Claim = Claim(epoch: u64, shard: u16, first: u64, last: u64, root: Hash)
  datatype Receipt = Receipt(claim: Claim, signer: u32, signature: Sig)

  datatype CollectorError =
    | EpochMismatch | RangeOutOfOrder(first: u64, last: u64) | OutsideWindow | ForeignWitness(index: u32)
    | InvalidWitnessSignature | WitnessEquivocation | AtCapacity | BelowThreshold | Quorum

  // ---- digests -------------------------------------------------------------

  function ClaimFields(c: Claim): seq<seq<byte>> {
    [LE(c.epoch, 8), LE(c.shard, 2), LE(c.first, 8), LE(c.last, 8), AsBytes(c.root)]
  }

  function ClaimBytes(c: Claim): seq<byte> { Concat(ClaimFields(c)) }

  function ClaimPreimage(c: Claim): seq<byte> { Preimage(DOMAIN_WITNESS, ClaimBytes(c)) }

  /** `witness_digest`. */
  function Digest(sha: Sha, c: Claim): Hash { HashDomain(sha, DOMAIN_WITNESS, ClaimBytes(c)) }

  lemma {:induction false} ClaimPreimageInjective(a: Claim, b: Claim)
    requires ClaimPreimage(a) == ClaimPreimage(b)
    ensures a == b
  {
    PreimageInjective(DOMAIN_WITNESS, ClaimBytes(a), DOMAIN_WITNESS, ClaimBytes(b));
    var x, y := ClaimFields(a), ClaimFields(b);
    ConcatFields(x, y);
    assert x[0] == y[0] && x[1] == y[1] && x[2] == y[2] && x[3] == y[3] && x[4] == y[4];
    Pow256Widths();
    LEInjective(a.epoch, b.epoch, 8);
    LEInjective(a.shard, b.shard, 2);
    LEInjective(a.first, b.first, 8);
    LEInjective(a.last, b.last, 8);
    AsBytesInjective(a.root, b.root);
  }

  /** Claims whose preimages lie in a collision-free set are equal when their digests are. */
  lemma {:induction false} DigestBinds(sha: Sha, preimages: iset<seq<byte>>, a: Claim, b: Claim)
    requires CollisionFree(sha, preimages) && ClaimPreimage(a) in preimages && ClaimPreimage(b) in preimages
    requires Digest(sha, a) == Digest(sha, b)
    ensures a == b
  {
    assert Collide(sha, ClaimPreimage(a), ClaimPreimage(b));
    ClaimPreimageInjective(a, b);
  }

  // ---- collector state -----------------------------------------------------

  /** (witness, shard, first, last). */
  type SeenKey = (u32, u16, u64, u64)
  type PerDigest = map<nat, Sig>

  datatype Collector = Collector(
    receipts: map<Hash, PerDigest>,    // digest -> (witness -> signature)
    seen: map<SeenKey, Hash>,          // equivocation index: the root first seen
    starts: map<Hash, u64>,            // digest -> first sequence, so pruning is precise
    watermark: u64,
    horizon: u64,
    maxEntries: nat,
    entries: nat)

  /** Everything a call depends on besides the collector. */
  datatype Env = Env(sha: Sha, valid: Verifier, committee: Committee)

  function ReceiptKey(r: Receipt): SeenKey { (r.signer, r.claim.shard, r.claim.first, r.claim.last) }

  /** `WitnessCollector::with_window`. */
  function WithWindow(watermark: u64, horizon: u64, maxEntries: nat): Collector {
    Collector(map[], map[], map[], watermark, horizon, maxEntries, 0)
  }

  /** The retained (digest, witness) entries. */
  function Pairs(receipts: map<Hash, PerDigest>): set<(Hash, nat)> {
    set d, w | d in receipts && w in receipts[d] :: (d, w)
  }

  /** `entries` is the exact number of retained entries, within the cap. */
  ghost predicate Counted(s: Collector) {
    s.entries == |Pairs(s.receipts)| <= s.maxEntries
  }

  /** Nothing retained starts below the watermark. */
  ghost predicate Windowed(s: Collector) {
    && (forall d | d in s.starts :: s.starts[d] >= s.watermark)
    && (forall k | k in s.seen :: k.2 >= s.watermark)
  }

  ghost predicate Indexed(s: Collector) {
    && s.receipts.Keys == s.starts.Keys
    && (forall d, w | d in s.receipts && w in s.receipts[d] :: w < MAX_VALIDATORS)
  }

  /** The data-structure invariant, whatever is hashed and whoever signs. */
  ghost predicate Valid(s: Collector) {
    Counted(s) && Windowed(s) && Indexed(s)
  }

  // ---- add_receipt ---------------------------------------------------------

  function PerDigestOf(s: Collector, d: Hash): PerDigest {
    if d in s.receipts then s.receipts[d] else map[]
  }

  predicate IsNew(sha: Sha, s: Collector, r: Receipt) {
    r.signer !in PerDigestOf(s, Digest(sha, r.claim))
  }

  /** Why `add_receipt` refuses `r`, checks in source order; `None` when it is admitted. */
  function Refusal(env: Env, s: Collector, r: Receipt): Option<CollectorError> {
    var c := r.claim;
    var members := env.committee.Members();
    if c.epoch != env.committee.epoch then Some(EpochMismatch)
    else if c.last < c.first then Some(RangeOutOfOrder(c.first, c.last))
    else if c.first < s.watermark || c.last > SaturatingAdd(s.watermark, s.horizon) then Some(OutsideWindow)
    else if r.signer >= |members| || r.signer >= MAX_VALIDATORS then Some(ForeignWitness(r.signer))
    else if !env.valid(members[r.signer].publicKey, Digest(env.sha, c), r.signature) then Some(InvalidWitnessSignature)
    else if ReceiptKey(r) in s.seen && s.seen[ReceiptKey(r)] != c.root then Some(WitnessEquivocation)
    else if IsNew(env.sha, s, r) && s.entries >= s.maxEntries then Some(AtCapacity)
    else None
  }

  /** The state after `r` is admitted. */
  function Admitted(sha: Sha, s: Collector, r: Receipt): Collector {
    var d := Digest(sha, r.claim);
    s.(receipts := s.receipts[d := PerDigestOf(s, d)[r.signer as nat := r.signature]],
       seen := if ReceiptKey(r) in s.seen then s.seen else s.seen[ReceiptKey(r) := r.claim.root],
       starts := if d in s.starts then s.starts else s.starts[d := r.claim.first],
       entries := if IsNew(sha, s, r) then s.entries + 1 else s.entries)
  }

  lemma AdmittedPairs(sha: Sha, s: Collector, r: Receipt)
    ensures Pairs(Admitted(sha, s, r).receipts) == Pairs(s.receipts) + {(Digest(sha, r.claim), r.signer as nat)}
    ensures IsNew(sha, s, r) <==> (Digest(sha, r.claim), r.signer as nat) !in Pairs(s.receipts)
  {
  }

  lemma {:induction false} AdmittedCounted(env: Env, s: Collector, r: Receipt)
    requires Counted(s) && Refusal(env, s, r).None?
    ensures Counted(Admitted(env.sha, s, r))
  {
    AdmittedPairs(env.sha, s, r);
  }

  lemma AdmittedWindowed(env: Env, s: Collector, r: Receipt)
    requires Windowed(s) && Refusal(env, s, r).None?
    ensures Windowed(Admitted(env.sha, s, r))
  {
  }

  lemma AdmittedIndexed(env: Env, s: Collector, r: Receipt)
    requires Indexed(s) && Refusal(env, s, r).None?
    ensures Indexed(Admitted(env.sha, s, r))
  {
  }

  lemma {:induction false} AdmittedValid(env: Env, s: Collector, r: Receipt)
    requires Valid(s) && Refusal(env, s, r).None?
    ensures Valid(Admitted(env.sha, s, r))
  {
    AdmittedCounted(env, s, r);
    AdmittedWindowed(env, s, r);
    AdmittedIndexed(env, s, r);
  }

  // ---- prune_below ---------------------------------------------------------

  function Max(a: u64, b: u64): u64 { if a < b then b else a }

  function Stale(starts: map<Hash, u64>, watermark: u64): set<Hash> {
    set d | d in starts && starts[d] < watermark
  }

  /** The state after `prune_below(sequence)`. */
  function Pruned(s: Collector, sequence: u64): Collector {
    var w := Max(s.watermark, sequence);
    var receipts := s.receipts - Stale(s.starts, w);
    s.(watermark := w,
       seen := map k | k in s.seen && k.2 >= w :: s.seen[k],
       starts := s.starts - Stale(s.starts, w),
       receipts := receipts,
       entries := |Pairs(receipts)|)
  }

  function Row(d: Hash, ws: set<nat>): set<(Hash, nat)> { set w | w in ws :: (d, w) }

  lemma {:induction false} RowSize(d: Hash, ws: set<nat>)
    ensures |Row(d, ws)| == |ws|
  {
    if ws != {} {
      var w :| w in ws;
      RowSize(d, ws - {w});
      assert Row(d, ws) == Row(d, ws - {w}) + {(d, w)};
    }
  }

  /** Dropping one digest drops exactly its own entries. */
  lemma {:induction false} DropDigest(receipts: map<Hash, PerDigest>, d: Hash)
    requires d in receipts
    ensures |Pairs(receipts - {d})| == |Pairs(receipts)| - |receipts[d]|
  {
    RowSize(d, receipts[d].Keys);
    assert Pairs(receipts - {d}) == Pairs(receipts) - Row(d, receipts[d].Keys);
    assert Row(d, receipts[d].Keys) <= Pairs(receipts);
  }

  lemma MinusOne<V>(m: map<Hash, V>, a: set<Hash>, d: Hash)
    ensures m - a - {d} == m - (a + {d})
  {
  }

  lemma {:induction false} FewerPairs(receipts: map<Hash, PerDigest>, ds: set<Hash>)
    ensures |Pairs(receipts - ds)| <= |Pairs(receipts)|
  {
    assert Pairs(receipts - ds) <= Pairs(receipts);
    SubsetSize(Pairs(receipts - ds), Pairs(receipts));
  }

  lemma {:induction false} SubsetSize<T>(a: set<T>, b: set<T>)
    requires a <= b
    ensures |a| <= |b|
  {
    assert |b| == |b - a| + |a| by { assert b == (b - a) + a; }
  }

  lemma {:induction false} PrunedValid(s: Collector, sequence: u64)
    requires Valid(s)
    ensures Valid(Pruned(s, sequence))
  {
    FewerPairs(s.receipts, Stale(s.starts, Max(s.watermark, sequence)));
  }

  // ---- certify -------------------------------------------------------------

  /** The retained weight behind `digest` reaches the finalize threshold. */
  ghost predicate Certifiable(env: Env, s: Collector, digest: Hash) {
    digest in s.receipts && Weight(env.committee.Members(), s.receipts[digest].Keys) >= env.committee.L()
  }

  predicate SignedBy(env: Env, d: Hash, w: nat, signature: Sig) {
    w < |env.committee.Members()| && env.valid(env.committee.Members()[w].publicKey, d, signature)
  }

  /** Every retained signature was checked against this committee when it was admitted. */
  ghost predicate AdmittedUnder(env: Env, s: Collector) {
    forall d, w | d in s.receipts && w in s.receipts[d] :: SignedBy(env, d, w, s.receipts[d][w])
  }

  class WitnessCollector {
    var receipts: map<Hash, PerDigest>
    var seen: map<SeenKey, Hash>
    var starts: map<Hash, u64>
    var watermark: u64
    var horizon: u64
    var maxEntries: nat
    var entries: nat

    ghost function State(): Collector
      reads this
    {
      Collector(receipts, seen, starts, watermark, horizon, maxEntries, entries)
    }

    /** `WitnessCollector::with_window`. */
    constructor (watermark: u64, horizon: u64, maxEntries: nat)
      ensures State() == WithWindow(watermark, horizon, maxEntries) && Valid(State())
    {
      receipts, seen, starts := map[], map[], map[];
      this.watermark, this.horizon, this.maxEntries, entries := watermark, horizon, maxEntries, 0;
    }

    /** `prune_below`: advance the watermark (never backwards) and drop every stale range. */
    method PruneBelow(sequence: u64)
      requires Valid(State())
      modifies this
      ensures Valid(State()) && State() == Pruned(old(State()), sequence)
    {
      PrunedValid(State(), sequence);
      watermark := Max(watermark, sequence);
      seen := map k | k in seen && k.2 >= watermark :: seen[k];
      DropStale(Stale(starts, watermark));
    }

    /** The eviction loop of `prune_below`. */
    method DropStale(digests: set<Hash>)
      requires Counted(State())
      modifies this`receipts, this`starts, this`entries
      ensures receipts == old(receipts) - digests && starts == old(starts) - digests
      ensures entries == |Pairs(receipts)|
    {
      var stale := digests;
      ghost var dropped: set<Hash> := {};
      assert receipts - {} == receipts && starts - {} == starts;
      while stale != {}
        invariant dropped + stale == digests
        invariant receipts == old(receipts) - dropped && starts == old(starts) - dropped
        invariant entries == |Pairs(receipts)|
        decreases stale
      {
        var digest :| digest in stale;
        MinusOne(old(starts), dropped, digest);
        MinusOne(old(receipts), dropped, digest);
        DropOne(digest);
        stale, dropped := stale - {digest}, dropped + {digest};
      }
    }

    method DropOne(digest: Hash)
      requires entries == |Pairs(receipts)|
      modifies this`receipts, this`starts, this`entries
      ensures receipts == old(receipts) - {digest} && starts == old(starts) - {digest}
      ensures entries == |Pairs(receipts)|
    {
      starts := starts - {digest};
      if digest in receipts {
        DropDigest(receipts, digest);
        entries := SaturatingSub(entries, |receipts[digest]|);
        receipts := receipts - {digest};
      } else {
        assert receipts - {digest} == receipts;
      }
    }

    /** `add_receipt`: refusals leave the collector untouched. */
    method AddReceipt(env: Env, r: Receipt) returns (result: Result<(), CollectorError>)
      requires Valid(State())
      modifies this
      ensures Valid(State())
      ensures match Refusal(env, old(State()), r)
              case Some(e) => result == Err(e) && State() == old(State())
              case None => result == Ok(()) && State() == Admitted(env.sha, old(State()), r)
    {
      ghost var before := State();
      var c := r.claim;
      var members := env.committee.Members();
      if c.epoch != env.committee.epoch { return Err(EpochMismatch); }
      if c.last < c.first { return Err(RangeOutOfOrder(c.first, c.last)); }
      if c.first < watermark || c.last > SaturatingAdd(watermark, horizon) { return Err(OutsideWindow); }
      if r.signer >= |members| || r.signer >= MAX_VALIDATORS { return Err(ForeignWitness(r.signer)); }
      var digest := Digest(env.sha, c);
      if !env.valid(members[r.signer].publicKey, digest, r.signature) { return Err(InvalidWitnessSignature); }
      var key := ReceiptKey(r);
      if key in seen && seen[key] != c.root { return Err(WitnessEquivocation); }
      var isNew := !(digest in receipts && r.signer in receipts[digest]);
      if isNew {
        if entries >= maxEntries { return Err(AtCapacity); }
        entries := entries + 1;
      }
      if key !in seen { seen := seen[key := c.root]; }
      if digest !in starts { starts := starts[digest := c.first]; }
      var per: PerDigest := if digest in receipts then receipts[digest] else map[];
      receipts := receipts[digest := per[r.signer := r.signature]];
      AdmittedValid(env, before, r);
      return Ok(());
    }

    /** `certify`: under the admitting committee it succeeds exactly when the retained weight reaches L,
        and then its certificate names exactly the retained witnesses. */
    method Certify(env: Env, digest: Hash) returns (result: Result<QuorumCertificate, CollectorError>)
      requires Valid(State()) && ValidCommittee(env.committee)
      ensures result.Ok? ==>
              && Certifiable(env, State(), digest)
              && Certified(env.valid, env.committee.Members(), env.committee.L(), result.value)
              && result.value.message == digest && Signers(result.value.signerBitmap) == receipts[digest].Keys
      ensures AdmittedUnder(env, State()) ==>
              && (result.Ok? <==> Certifiable(env, State(), digest))
              && (result.Err? ==> result.error == CollectorError.BelowThreshold)
    {
      var members := env.committee.Members();
      if digest !in receipts { return Err(CollectorError.BelowThreshold); }
      var per := receipts[digest];
      var bitmap, signatures, weight, foreign := Gather(members, per);
      if foreign.Some? {
        ghost var i :| i in per && |members| <= i < MAX_VALIDATORS;
        assert AdmittedUnder(env, State()) ==> SignedBy(env, digest, i, receipts[digest][i]);
        return Err(ForeignWitness(foreign.value));
      }
      assert BelowCap(per, MAX_VALIDATORS) == per.Keys;
      if weight < env.committee.L() { return Err(CollectorError.BelowThreshold); }
      assert Pow2(16) == U16_SIZE by { assert Pow2(8) == 0x100; Pow2Split(8, 8); }
      var qc := QuorumCertificate(digest, bitmap, signatures);
      PackedSigners(bitmap, signatures, per);
      var checked := Verify(env.valid, env.committee.finalizeSet, qc);
      if checked.Err? {
        if AdmittedUnder(env, State()) {
          forall i | i in per ensures SignedBy(env, digest, i, per[i]) { assert per[i] == receipts[digest][i]; }
          PackedSigned(env, qc, per);
        }
        return Err(CollectorError.Quorum);
      }
      return Ok(qc);
    }
  }

  function BelowCap(per: PerDigest, k: nat): set<nat> { set i | 0 <= i < k && i in per }

  /** Bit i says whether `per` has an entry i, whose signature then sits at its rank. */
  predicate PackedAt(bitmap: nat, signatures: seq<Sig>, per: PerDigest, i: nat) {
    && (Bit(bitmap, i) <==> i in per)
    && (i in per ==> Rank(bitmap, i) < |signatures| && signatures[Rank(bitmap, i)] == per[i])
  }

  /** `bitmap` and `signatures` pack exactly the entries of `per` below k. */
  ghost predicate Packs(bitmap: nat, signatures: seq<Sig>, per: PerDigest, k: nat) {
    && bitmap < Pow2(k) && |signatures| == Rank(bitmap, k)
    && forall i | 0 <= i < k :: PackedAt(bitmap, signatures, per, i)
  }

  lemma {:induction false} PacksSkip(bitmap: nat, signatures: seq<Sig>, per: PerDigest, k: nat)
    requires Packs(bitmap, signatures, per, k) && k !in per
    ensures Packs(bitmap, signatures, per, k + 1)
  {
    ShiftZero(bitmap, k);
    assert PackedAt(bitmap, signatures, per, k);
  }

  lemma {:induction false} PackedAtKept(bitmap: nat, signatures: seq<Sig>, per: PerDigest, k: nat, i: nat)
    requires bitmap < Pow2(k) && i < k && k in per && PackedAt(bitmap, signatures, per, i)
    ensures PackedAt(bitmap + Pow2(k), signatures + [per[k]], per, i)
  {
    SetTopBit(bitmap, k, i);
    SetTopRank(bitmap, k, i);
  }

  lemma {:induction false} PacksTake(bitmap: nat, signatures: seq<Sig>, per: PerDigest, k: nat)
    requires Packs(bitmap, signatures, per, k) && k in per
    ensures Packs(bitmap + Pow2(k), signatures + [per[k]], per, k + 1)
  {
    var b, sigs := bitmap + Pow2(k), signatures + [per[k]];
    SetTopBit(bitmap, k, k);
    SetTopRank(bitmap, k, k);
    assert PackedAt(b, sigs, per, k);
    forall i | 0 <= i < k ensures PackedAt(b, sigs, per, i) {
      PackedAtKept(bitmap, signatures, per, k, i);
    }
  }

  lemma {:induction false} PackedSigners(bitmap: nat, signatures: seq<Sig>, per: PerDigest)
    requires Packs(bitmap, signatures, per, MAX_VALIDATORS) && forall w | w in per :: w < MAX_VALIDATORS
    ensures Signers(bitmap) == per.Keys
  {
    forall i | 0 <= i < MAX_VALIDATORS ensures Bit(bitmap, i) <==> i in per {
      assert PackedAt(bitmap, signatures, per, i);
    }
  }

  lemma {:induction false} PackedSigned(env: Env, qc: QuorumCertificate, per: PerDigest)
    requires Packs(qc.signerBitmap, qc.signatures, per, MAX_VALIDATORS)
    requires forall w | w in per :: SignedBy(env, qc.message, w, per[w])
    ensures forall i | i in Signers(qc.signerBitmap) :: Signed(env.valid, env.committee.Members(), qc, i)
  {
    forall i | i in Signers(qc.signerBitmap) ensures Signed(env.valid, env.committee.Members(), qc, i) {
      assert PackedAt(qc.signerBitmap, qc.signatures, per, i);
      assert SignedBy(env, qc.message, i, per[i]);
    }
  }

  /** The loop of `certify`. A BTreeMap iterates in ascending key order, every key below MAX_VALIDATORS. */
  method Gather(members: seq<Validator>, per: PerDigest)
    returns (bitmap: nat, signatures: seq<Sig>, weight: nat, foreign: Option<u32>)
    requires |members| <= MAX_VALIDATORS
    ensures foreign.Some? <==> exists i | i in per :: |members| <= i < MAX_VALIDATORS
    ensures foreign.None? ==>
            && Packs(bitmap, signatures, per, MAX_VALIDATORS)
            && weight == Weight(members, BelowCap(per, MAX_VALIDATORS))
  {
    bitmap, signatures, weight := 0, [], 0;
    WeightOfEmpty(members);
    assert BelowCap(per, 0) == {};
    for k := 0 to MAX_VALIDATORS
      invariant Packs(bitmap, signatures, per, k)
      invariant forall i | i in per && i < k :: i < |members|
      invariant weight == Weight(members, BelowCap(per, k))
    {
      if k in per {
        if k >= |members| { return bitmap, signatures, weight, Some(k); }
        PacksTake(bitmap, signatures, per, k);
        bitmap, signatures := bitmap + Pow2(k), signatures + [per[k]];
        WeightInsert(members, BelowCap(per, k), k);
        assert BelowCap(per, k + 1) == BelowCap(per, k) + {k};
        weight := weight + members[k].weight;
      } else {
        PacksSkip(bitmap, signatures, per, k);
        assert BelowCap(per, k + 1) == BelowCap(per, k);
      }
    }
    foreign := None;
  }
}

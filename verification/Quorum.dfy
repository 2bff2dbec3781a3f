/** Weighted validator sets, quorum certificates and the Minimmit thresholds M = 2B + 1 and L = W - B. */
module Quorum {
  import opened Bytes
  import opened Hashing

  const MAX_VALIDATORS := 16

  type Key = Hash
  type Sig = seq<byte>

  /** `verify_ed25519(public key, message, signature)`. */
  type Verifier = (Key, Hash, Sig) -> bool

  datatype Validator = Validator(publicKey: Key, weight: u64)
  datatype ValidatorSet = ValidatorSet(validators: seq<Validator>, totalWeight: u64, threshold: u64)
  datatype QuorumCertificate = QuorumCertificate(message: Hash, signerBitmap: u16, signatures: seq<Sig>)

  datatype QuorumError =
    | UnknownSigner | MalformedCertificate | InvalidSignature | BelowThreshold(signed: u64, threshold: u64)
    | WeightOverflow | InvalidSet | DuplicateValidator | ZeroWeight
    | ThresholdOutOfRange(threshold: u64, total: u64) | InsufficientSizing(total: u64, byzantine: u64)

  // ---- weights of signer sets ----------------------------------------------

  /** Total weight of the members whose index lies in `s`. */
  ghost function Weight(vs: seq<Validator>, s: set<nat>): nat {
    if vs == [] then 0
    else
      var n := |vs| - 1;
      Weight(vs[..n], s) + (if n in s then vs[n].weight else 0)
  }

  ghost function TotalWeight(vs: seq<Validator>): nat {
    if vs == [] then 0 else TotalWeight(vs[..|vs| - 1]) + vs[|vs| - 1].weight
  }

  lemma {:induction false} WeightInclusionExclusion(vs: seq<Validator>, a: set<nat>, b: set<nat>)
    ensures Weight(vs, a) + Weight(vs, b) == Weight(vs, a + b) + Weight(vs, a * b)
  {
    if vs != [] { WeightInclusionExclusion(vs[..|vs| - 1], a, b); }
  }

  lemma {:induction false} WeightAtMostTotal(vs: seq<Validator>, s: set<nat>)
    ensures Weight(vs, s) <= TotalWeight(vs)
  {
    if vs != [] { WeightAtMostTotal(vs[..|vs| - 1], s); }
  }

  lemma {:induction false} WeightOfAll(vs: seq<Validator>, s: set<nat>)
    requires forall i | 0 <= i < |vs| :: i in s
    ensures Weight(vs, s) == TotalWeight(vs)
  {
    if vs != [] { WeightOfAll(vs[..|vs| - 1], s); }
  }

  lemma {:induction false} WeightMonotone(vs: seq<Validator>, a: set<nat>, b: set<nat>)
    requires forall i | i in a && i < |vs| :: i in b
    ensures Weight(vs, a) <= Weight(vs, b)
  {
    if vs != [] { WeightMonotone(vs[..|vs| - 1], a, b); }
  }

  /** Two signer sets together heavier than the committee share at least the excess. */
  lemma {:induction false} WeightOverlap(vs: seq<Validator>, a: set<nat>, b: set<nat>)
    ensures Weight(vs, a * b) >= Weight(vs, a) + Weight(vs, b) - TotalWeight(vs)
  {
    WeightInclusionExclusion(vs, a, b);
    WeightAtMostTotal(vs, a + b);
  }

  lemma {:induction false} WeightOfEmpty(vs: seq<Validator>)
    ensures Weight(vs, {}) == 0
  {
    if vs != [] { WeightOfEmpty(vs[..|vs| - 1]); }
  }

  lemma {:induction false} DisjointWeights(vs: seq<Validator>, a: set<nat>, b: set<nat>)
    requires a !! b
    ensures Weight(vs, a) + Weight(vs, b) <= TotalWeight(vs)
  {
    assert a * b == {};
    WeightOfEmpty(vs);
    WeightOverlap(vs, a, b);
  }

  /** A set of positive weight has a member inside the committee. */
  lemma {:induction false} PositiveWeightMember(vs: seq<Validator>, s: set<nat>) returns (i: nat)
    requires Weight(vs, s) > 0
    ensures i < |vs| && i in s
  {
    var n := |vs| - 1;
    if n in s { i := n; } else { i := PositiveWeightMember(vs[..n], s); }
  }

  lemma {:induction false} WeightInsert(vs: seq<Validator>, s: set<nat>, i: nat)
    requires i < |vs| && i !in s
    ensures Weight(vs, s + {i}) == Weight(vs, s) + vs[i].weight
  {
    var n := |vs| - 1;
    if i < n {
      WeightInsert(vs[..n], s, i);
    } else {
      WeightMonotone(vs[..n], s + {i}, s);
      WeightMonotone(vs[..n], s, s + {i});
    }
  }

  // ---- canonical sets ------------------------------------------------------

  predicate DistinctKeys(vs: seq<Validator>) {
    forall i, j | 0 <= i < j < |vs| :: vs[i].publicKey != vs[j].publicKey
  }

  predicate PositiveWeights(vs: seq<Validator>) {
    forall i | 0 <= i < |vs| :: vs[i].weight > 0
  }

  /** What every constructor of a validator set enforces on its members. */
  ghost predicate Canonical(vs: seq<Validator>) {
    1 <= |vs| <= MAX_VALIDATORS && DistinctKeys(vs) && PositiveWeights(vs) && TotalWeight(vs) < U64_SIZE
  }

  ghost predicate ValidSet(set_: ValidatorSet) {
    && Canonical(set_.validators)
    && set_.totalWeight == TotalWeight(set_.validators)
    && 1 <= set_.threshold <= set_.totalWeight
  }

  lemma {:induction false} TotalWeightPrefix(vs: seq<Validator>, k: nat)
    requires k < |vs|
    ensures TotalWeight(vs[..k + 1]) == TotalWeight(vs[..k]) + vs[k].weight
    ensures TotalWeight(vs[..k + 1]) <= TotalWeight(vs)
    decreases |vs| - k
  {
    assert vs[..k + 1][..k] == vs[..k];
    if k + 1 < |vs| { TotalWeightPrefix(vs, k + 1); } else { assert vs[..k + 1] == vs; }
  }

  /** `validate_membership`: accepts exactly the canonical memberships. */
  method ValidateMembership(vs: seq<Validator>) returns (r: Result<u64, QuorumError>)
    ensures r.Ok? <==> Canonical(vs)
    ensures r.Ok? ==> r.value == TotalWeight(vs)
  {
    if |vs| == 0 || |vs| > MAX_VALIDATORS { return Err(InvalidSet); }
    var seen: set<Key> := {};
    var total: u64 := 0;
    for k := 0 to |vs|
      invariant total == TotalWeight(vs[..k])
      invariant forall i | 0 <= i < k :: vs[i].weight > 0
      invariant forall i, j | 0 <= i < j < k :: vs[i].publicKey != vs[j].publicKey
      invariant seen == set i | 0 <= i < k :: vs[i].publicKey
    {
      TotalWeightPrefix(vs, k);
      if vs[k].weight == 0 { return Err(ZeroWeight); }
      if vs[k].publicKey in seen {
        var i :| 0 <= i < k && vs[i].publicKey == vs[k].publicKey;
        return Err(DuplicateValidator);
      }
      seen := seen + {vs[k].publicKey};
      if total + vs[k].weight >= U64_SIZE { return Err(WeightOverflow); }
      total := total + vs[k].weight;
    }
    assert vs[..|vs|] == vs;
    return Ok(total);
  }

  // ---- certificate verification --------------------------------------------

  /** Bit i of a bitmap. */
  predicate Bit(bitmap: nat, i: nat) { Shift(bitmap, i) % 2 == 1 }

  /** Number of set bits below bit i: the position of signer i's signature. */
  function Rank(bitmap: nat, i: nat): nat {
    if i == 0 then 0 else Rank(bitmap, i - 1) + (if Bit(bitmap, i - 1) then 1 else 0)
  }

  function Signers(bitmap: nat): set<nat> {
    set i | 0 <= i < MAX_VALIDATORS && Bit(bitmap, i)
  }

  /** A certificate that `vs` verifies at weight `threshold`: every named signer is a member whose
      own signature, found at its rank, signs the message, and the signers are heavy enough. */
  ghost predicate Certified(valid: Verifier, vs: seq<Validator>, threshold: nat, qc: QuorumCertificate) {
    && |qc.signatures| == Rank(qc.signerBitmap, MAX_VALIDATORS)
    && (forall i | i in Signers(qc.signerBitmap) :: Signed(valid, vs, qc, i))
    && Weight(vs, Signers(qc.signerBitmap)) >= threshold
  }

  predicate Signed(valid: Verifier, vs: seq<Validator>, qc: QuorumCertificate, i: nat) {
    && i < |vs| && Rank(qc.signerBitmap, i) < |qc.signatures|
    && valid(vs[i].publicKey, qc.message, qc.signatures[Rank(qc.signerBitmap, i)])
  }

  lemma {:induction false} RankMonotone(bitmap: nat, i: nat, j: nat)
    requires i <= j
    ensures Rank(bitmap, i) <= Rank(bitmap, j)
    ensures i < j && Bit(bitmap, i) ==> Rank(bitmap, i) < Rank(bitmap, j)
  {
    if i < j { RankMonotone(bitmap, i, j - 1); }
  }

  /** Setting bit i of a bitmap that has nothing at or above i. */
  lemma {:induction false} SetTopBit(bitmap: nat, i: nat, j: nat)
    requires bitmap < Pow2(i)
    ensures Bit(bitmap + Pow2(i), j) <==> j == i || Bit(bitmap, j)
    ensures bitmap + Pow2(i) < Pow2(i + 1)
  {
    if j <= i {
      ShiftHigh(bitmap, j, i);
      ShiftZero(bitmap, i);
    } else {
      Pow2Monotone(i + 1, j);
      ShiftZero(bitmap, j);
      ShiftZero(bitmap + Pow2(i), j);
    }
  }

  /** ... leaves the ranks of the bits up to i as they were. */
  lemma {:induction false} SetTopRank(bitmap: nat, i: nat, j: nat)
    requires bitmap < Pow2(i) && j <= i
    ensures Rank(bitmap + Pow2(i), j) == Rank(bitmap, j)
  {
    if j > 0 {
      SetTopRank(bitmap, i, j - 1);
      SetTopBit(bitmap, i, j - 1);
    }
  }

  /** `ValidatorSet::verify`. */
  method Verify(valid: Verifier, set_: ValidatorSet, qc: QuorumCertificate) returns (r: Result<(), QuorumError>)
    requires ValidSet(set_)
    ensures r.Ok? <==> Certified(valid, set_.validators, set_.threshold, qc)
  {
    var vs := set_.validators;
    var bitmap := qc.signerBitmap;
    if Rank(bitmap, MAX_VALIDATORS) != |qc.signatures| { return Err(MalformedCertificate); }
    var signedWeight: u64, sigIndex := 0, 0;
    ghost var done: set<nat> := {};
    WeightOfEmpty(vs);
    for bit := 0 to MAX_VALIDATORS
      invariant sigIndex == Rank(bitmap, bit)
      invariant done == set i | 0 <= i < bit && Bit(bitmap, i)
      invariant forall i | i in done :: Signed(valid, vs, qc, i)
      invariant signedWeight == Weight(vs, done)
    {
      if Bit(bitmap, bit) {
        assert bit in Signers(bitmap);
        RankMonotone(bitmap, bit, MAX_VALIDATORS);
        if bit >= |vs| { return Err(UnknownSigner); }
        if !valid(vs[bit].publicKey, qc.message, qc.signatures[sigIndex]) {
          assert !Signed(valid, vs, qc, bit);
          return Err(InvalidSignature);
        }
        sigIndex := sigIndex + 1;
        WeightInsert(vs, done, bit);
        done := done + {bit};
        WeightAtMostTotal(vs, done);
        signedWeight := signedWeight + vs[bit].weight;
      }
    }
    assert done == Signers(bitmap);
    if signedWeight < set_.threshold { return Err(BelowThreshold(signedWeight, set_.threshold)); }
    return Ok(());
  }

  // ---- the Minimmit committee ----------------------------------------------

  /** `minimmit_thresholds`: (M, L). */
  function MinimmitThresholds(total: u64, byzantine: u64): (r: Result<(u64, u64), QuorumError>)
    ensures r.Ok? <==> byzantine < total && 2 * byzantine + 1 < U64_SIZE
  {
    if byzantine >= total then Err(ThresholdOutOfRange(0, total))
    else if 2 * byzantine + 1 >= U64_SIZE then Err(WeightOverflow)
    else Ok((2 * byzantine + 1, total - byzantine))
  }

  /** `require_minimmit_sizing`, with its checked arithmetic. */
  function RequireMinimmitSizing(total: u64, byzantine: u64): (r: Result<(), QuorumError>)
    ensures r.Ok? <==> total >= 5 * byzantine + 1 && total > 3 * byzantine + 1
  {
    if 5 * byzantine + 1 >= U64_SIZE || total < 5 * byzantine + 1 then Err(InsufficientSizing(total, byzantine))
    else
      match MinimmitThresholds(total, byzantine)
      case Err(e) => Err(e)
      case Ok((advance, finalize)) =>
        if advance >= finalize then Err(InsufficientSizing(total, byzantine)) else Ok(())
  }

  datatype Committee = Committee(epoch: u64, byzantine: u64, advanceSet: ValidatorSet, finalizeSet: ValidatorSet) {
    function Members(): seq<Validator> { finalizeSet.validators }
    function W(): nat { finalizeSet.totalWeight }
    function M(): nat { advanceSet.threshold }
    function L(): nat { finalizeSet.threshold }
  }

  /** The invariant `MinimmitCommittee::new` establishes. */
  ghost predicate ValidCommittee(c: Committee) {
    && ValidSet(c.advanceSet) && ValidSet(c.finalizeSet)
    && c.advanceSet.validators == c.finalizeSet.validators
    && c.M() == 2 * c.byzantine + 1 && c.L() == c.W() - c.byzantine
    && c.W() >= 5 * c.byzantine + 1 && c.M() < c.L()
  }

  datatype CommitteeError =
    EmptyCommittee | TooManyValidators | InvalidValidatorSet | Undersized(total: u64, byzantine: u64)
  datatype CommitteeResult = Built(committee: Committee) | Rejected(error: CommitteeError)

  /** `MinimmitCommittee::new`: builds exactly the canonical, parseable committees that can tolerate
      `byzantine` weight; `parses` is the ed25519 key check. */
  method NewCommittee(epoch: u64, vs: seq<Validator>, byzantine: u64, parses: Key -> bool)
    returns (r: CommitteeResult)
    ensures r.Built? <==>
            && Canonical(vs) && (forall i | 0 <= i < |vs| :: parses(vs[i].publicKey))
            && TotalWeight(vs) >= 5 * byzantine + 1 && TotalWeight(vs) > 3 * byzantine + 1
    ensures r.Built? ==>
            && ValidCommittee(r.committee) && r.committee.epoch == epoch && r.committee.byzantine == byzantine
            && r.committee.Members() == vs
    ensures Canonical(vs) && !(TotalWeight(vs) >= 5 * byzantine + 1 && TotalWeight(vs) > 3 * byzantine + 1) ==>
            r == Rejected(Undersized(TotalWeight(vs), byzantine))
  {
    if |vs| == 0 { return Rejected(EmptyCommittee); }
    if |vs| > MAX_VALIDATORS { return Rejected(TooManyValidators); }
    var membership := ValidateMembership(vs);
    if membership.Err? { return Rejected(InvalidValidatorSet); }
    var total := membership.value;
    if RequireMinimmitSizing(total, byzantine).Err? { return Rejected(Undersized(total, byzantine)); }
    var (advance, finalize) := MinimmitThresholds(total, byzantine).value;
    for k := 0 to |vs|
      invariant forall i | 0 <= i < k :: parses(vs[i].publicKey)
    {
      if !parses(vs[k].publicKey) { return Rejected(InvalidValidatorSet); }
    }
    r := Built(Committee(epoch, byzantine, ValidatorSet(vs, total, advance), ValidatorSet(vs, total, finalize)));
  }

  /** Two finalize quorums share weight at least W - 2B >= 3B + 1. */
  lemma {:induction false} FinalizeQuorumsIntersect(c: Committee, a: set<nat>, b: set<nat>)
    requires ValidCommittee(c) && Weight(c.Members(), a) >= c.L() && Weight(c.Members(), b) >= c.L()
    ensures Weight(c.Members(), a * b) >= c.W() - 2 * c.byzantine >= 3 * c.byzantine + 1
  {
    WeightOverlap(c.Members(), a, b);
  }

  /** An advance quorum and a finalize quorum share more than B. */
  lemma {:induction false} AdvanceMeetsFinalize(c: Committee, a: set<nat>, b: set<nat>)
    requires ValidCommittee(c) && Weight(c.Members(), a) >= c.M() && Weight(c.Members(), b) >= c.L()
    ensures Weight(c.Members(), a * b) >= c.byzantine + 1
  {
    WeightOverlap(c.Members(), a, b);
  }

  /** Two certificates of one committee over different messages expose double signers heavier than
      the committee was sized to tolerate, each with a valid signature over both messages. */
  lemma {:induction false} RivalCertificates(valid: Verifier, c: Committee, a: QuorumCertificate, b: QuorumCertificate)
    requires ValidCommittee(c)
    requires Certified(valid, c.Members(), c.L(), a) && Certified(valid, c.Members(), c.L(), b)
    ensures var both := Signers(a.signerBitmap) * Signers(b.signerBitmap);
            && Weight(c.Members(), both) >= c.W() - 2 * c.byzantine >= 3 * c.byzantine + 1
            && forall i | i in both :: Signed(valid, c.Members(), a, i) && Signed(valid, c.Members(), b, i)
  {
    FinalizeQuorumsIntersect(c, Signers(a.signerBitmap), Signers(b.signerBitmap));
  }
}

/** The custody edge's messages, their codecs and the bodies its parties sign. */
module Custody {
  import opened Bytes
  import opened Hashing
  import opened Quorum
  import opened CustodyCodec

  const MAX_TXID_LEN := 96
  const MAX_ADDRESS_LEN := 64
  const MAX_USER_SIG_LEN := 96
  const MAX_WITNESS_HEADERS := 4096
  const MAX_INCLUSION_DEPTH := 64
  const MAX_QUORUM_SIGNATURES := 16

  /** No bound beyond the machine's: a length prefix always fits 64 bits. */
  const UNBOUNDED := U64_SIZE - 1

  datatype DepositEvent = DepositEvent(
    chain: u64, tx: seq<byte>, index: u32, asset: u32, amount: i128, account: u32)
  datatype FinalityProof = FinalityProof(blockNumber: u64, blockHash: Hash, confirmations: u32)
  datatype VerifiedDeposit = VerifiedDeposit(event: DepositEvent, proof: FinalityProof)
  datatype DepositCertificate = DepositCertificate(
    event: DepositEvent, proof: FinalityProof, observerBitmap: u64, qc: QuorumCertificate)
  datatype BlockHeader = BlockHeader(number: u64, parentHash: Hash, inclusionRoot: Hash)
  datatype InclusionProof = InclusionProof(leafIndex: u32, siblings: seq<Hash>)
  datatype FinalityWitness = FinalityWitness(headers: seq<BlockHeader>, inclusion: InclusionProof)
  datatype WithdrawalStatus = Pending | Confirming(confirmations: u32) | Finalized | Failed
  datatype WithdrawalRequest = WithdrawalRequest(
    account: u32, chain: u64, address: seq<byte>, asset: u32, amount: i128, nonce: u64, expiresAt: u64,
    userSignature: seq<byte>)
  datatype UnsignedTx = UnsignedTx(
    chain: u64, id: Hash, to: seq<byte>, asset: u32, amount: i128, nonce: u64, payload: seq<byte>)
  datatype WithdrawalCertificate = WithdrawalCertificate(
    id: Hash, chain: u64, tx: seq<byte>, asset: u32, amount: i128, proof: FinalityProof, observerBitmap: u64,
    qc: QuorumCertificate)

  // ---- codecs, field by field in wire order --------------------------------

  type ProofTuple = (u64, (Hash, u32))

  function ProofParts(p: FinalityProof): ProofTuple {
    (p.blockNumber, (p.blockHash, p.confirmations))
  }

  function ProofOf(t: ProofTuple): FinalityProof {
    FinalityProof(t.0, t.1.0, t.1.1)
  }

  /** `FinalityProof`. */
  const PROOF: Codec<FinalityProof> := As(Fields3(U64, HASH, U32), ProofOf, ProofParts)

  lemma {:induction false} ProofExact()
    ensures Exact(PROOF)
  {
    WordsExact();
    HashExact();
    Fields3Exact(U64, HASH, U32);
    AsExact(Fields3(U64, HASH, U32), ProofOf, ProofParts);
  }

  lemma {:induction false} ProofShape(p: FinalityProof)
    ensures PROOF.fits(p)
    ensures PROOF.write(p) == U64.write(p.blockNumber) + (HASH.write(p.blockHash) + U32.write(p.confirmations))
  {
    Fields3Shape(U64, HASH, U32, p.blockNumber, p.blockHash, p.confirmations);
    AsShape(Fields3(U64, HASH, U32), ProofOf, ProofParts, p);
  }

  lemma {:induction false} ProofRoundTrip(b: seq<byte>, p: FinalityProof)
    ensures Decode(PROOF, b) == Ok(p) <==> b == PROOF.write(p)
  {
    ProofExact();
    ProofShape(p);
    DecodeExact(PROOF, b, p);
  }

  predicate QcFits(q: QuorumCertificate) {
    |q.signatures| <= MAX_QUORUM_SIGNATURES && forall i | 0 <= i < |q.signatures| :: |q.signatures[i]| == 64
  }

  type QcTuple = (Hash, (u16, seq<Sig>))

  function QcParts(q: QuorumCertificate): QcTuple {
    (q.message, (q.signerBitmap, q.signatures))
  }

  function QcOf(t: QcTuple): QuorumCertificate {
    QuorumCertificate(t.0, t.1.0, t.1.1)
  }

  /** `QuorumCertificate`. */
  const QC: Codec<QuorumCertificate> := As(Fields3(HASH, U16, ListOf(Fixed(64), MAX_QUORUM_SIGNATURES)), QcOf, QcParts)

  lemma {:induction false} QcExact()
    ensures Exact(QC)
  {
    WordsExact();
    HashExact();
    FixedExact(64);
    ListExact(Fixed(64), MAX_QUORUM_SIGNATURES);
    Fields3Exact(HASH, U16, ListOf(Fixed(64), MAX_QUORUM_SIGNATURES));
    AsExact(Fields3(HASH, U16, ListOf(Fixed(64), MAX_QUORUM_SIGNATURES)), QcOf, QcParts);
  }

  lemma {:induction false} QcShape(q: QuorumCertificate)
    ensures QC.fits(q) <==> QcFits(q)
    ensures QC.write(q)
         == HASH.write(q.message) + (U16.write(q.signerBitmap)
            + ListOf(Fixed(64), MAX_QUORUM_SIGNATURES).write(q.signatures))
  {
    Fields3Shape(HASH, U16, ListOf(Fixed(64), MAX_QUORUM_SIGNATURES), q.message, q.signerBitmap, q.signatures);
    AsShape(Fields3(HASH, U16, ListOf(Fixed(64), MAX_QUORUM_SIGNATURES)), QcOf, QcParts, q);
  }

  lemma {:induction false} QcRoundTrip(b: seq<byte>, q: QuorumCertificate)
    ensures Decode(QC, b) == Ok(q) <==> QcFits(q) && b == QC.write(q)
  {
    QcExact();
    QcShape(q);
    DecodeExact(QC, b, q);
  }

  type EventTuple = (u64, (seq<byte>, (u32, (u32, (i128, u32)))))

  function EventParts(e: DepositEvent): EventTuple {
    (e.chain, (e.tx, (e.index, (e.asset, (e.amount, e.account)))))
  }

  function EventOf(t: EventTuple): DepositEvent {
    DepositEvent(t.0, t.1.0, t.1.1.0, t.1.1.1.0, t.1.1.1.1.0, t.1.1.1.1.1)
  }

  /** `DepositEvent`, with the bound on transaction ids that the decoder applies; hashing applies none. */
  function Event(max: nat): Codec<DepositEvent> {
    As(Fields6(U64, Blob(max), U32, U32, I128, U32), EventOf, EventParts)
  }

  lemma {:induction false} EventExact(max: nat)
    ensures Exact(Event(max))
  {
    WordsExact();
    I128Exact();
    BlobsExact(max);
    Fields6Exact(U64, Blob(max), U32, U32, I128, U32);
    AsExact(Fields6(U64, Blob(max), U32, U32, I128, U32), EventOf, EventParts);
  }

  lemma {:induction false} EventShape(max: nat, e: DepositEvent)
    ensures Event(max).fits(e) <==> |e.tx| <= max && |e.tx| < U64_SIZE
    ensures Event(max).write(e)
         == U64.write(e.chain) + (Blob(max).write(e.tx) + (U32.write(e.index) + (U32.write(e.asset)
            + (I128.write(e.amount) + U32.write(e.account)))))
  {
    Fields6Shape(U64, Blob(max), U32, U32, I128, U32, e.chain, e.tx, e.index, e.asset, e.amount, e.account);
    AsShape(Fields6(U64, Blob(max), U32, U32, I128, U32), EventOf, EventParts, e);
  }

  lemma {:induction false} EventRoundTrip(max: nat, b: seq<byte>, e: DepositEvent)
    ensures Decode(Event(max), b) == Ok(e) <==> |e.tx| <= max && |e.tx| < U64_SIZE && b == Event(max).write(e)
  {
    EventExact(max);
    EventShape(max, e);
    DecodeExact(Event(max), b, e);
  }

  type DepositTuple = (DepositEvent, FinalityProof)

  function DepositParts(d: VerifiedDeposit): DepositTuple {
    (d.event, d.proof)
  }

  function DepositOf(t: DepositTuple): VerifiedDeposit {
    VerifiedDeposit(t.0, t.1)
  }

  /** `VerifiedDeposit`, and the body `deposit_body_hash` writes. */
  function Deposit(max: nat): Codec<VerifiedDeposit> {
    As(Both(Event(max), PROOF), DepositOf, DepositParts)
  }

  lemma {:induction false} DepositExact(max: nat)
    ensures Exact(Deposit(max))
  {
    EventExact(max);
    ProofExact();
    BothExact(Event(max), PROOF);
    AsExact(Both(Event(max), PROOF), DepositOf, DepositParts);
  }

  lemma {:induction false} DepositShape(max: nat, d: VerifiedDeposit)
    ensures Deposit(max).fits(d) <==> |d.event.tx| <= max && |d.event.tx| < U64_SIZE
    ensures Deposit(max).write(d) == Event(max).write(d.event) + PROOF.write(d.proof)
  {
    BothShape(Event(max), PROOF, d.event, d.proof);
    EventShape(max, d.event);
    AsShape(Both(Event(max), PROOF), DepositOf, DepositParts, d);
  }

  lemma {:induction false} DepositRoundTrip(max: nat, b: seq<byte>, d: VerifiedDeposit)
    ensures Decode(Deposit(max), b) == Ok(d)
       <==> |d.event.tx| <= max && |d.event.tx| < U64_SIZE && b == Deposit(max).write(d)
  {
    DepositExact(max);
    DepositShape(max, d);
    DecodeExact(Deposit(max), b, d);
  }

  type DepositCertificateTuple = (DepositEvent, (FinalityProof, (u64, QuorumCertificate)))

  function DepositCertificateParts(c: DepositCertificate): DepositCertificateTuple {
    (c.event, (c.proof, (c.observerBitmap, c.qc)))
  }

  function DepositCertificateOf(t: DepositCertificateTuple): DepositCertificate {
    DepositCertificate(t.0, t.1.0, t.1.1.0, t.1.1.1)
  }

  /** `DepositCertificate`. */
  const DEPOSIT_CERTIFICATE: Codec<DepositCertificate> :=
    As(Fields4(Event(MAX_TXID_LEN), PROOF, U64, QC), DepositCertificateOf, DepositCertificateParts)

  lemma {:induction false} DepositCertificateExact()
    ensures Exact(DEPOSIT_CERTIFICATE)
  {
    WordsExact();
    EventExact(MAX_TXID_LEN);
    ProofExact();
    QcExact();
    Fields4Exact(Event(MAX_TXID_LEN), PROOF, U64, QC);
    AsExact(Fields4(Event(MAX_TXID_LEN), PROOF, U64, QC), DepositCertificateOf, DepositCertificateParts);
  }

  lemma {:induction false} DepositCertificateShape(c: DepositCertificate)
    ensures DEPOSIT_CERTIFICATE.fits(c) <==> |c.event.tx| <= MAX_TXID_LEN && QcFits(c.qc)
    ensures DEPOSIT_CERTIFICATE.write(c)
         == Event(MAX_TXID_LEN).write(c.event) + (PROOF.write(c.proof) + (U64.write(c.observerBitmap)
            + QC.write(c.qc)))
  {
    Fields4Shape(Event(MAX_TXID_LEN), PROOF, U64, QC, c.event, c.proof, c.observerBitmap, c.qc);
    EventShape(MAX_TXID_LEN, c.event);
    ProofShape(c.proof);
    QcShape(c.qc);
    AsShape(Fields4(Event(MAX_TXID_LEN), PROOF, U64, QC), DepositCertificateOf, DepositCertificateParts, c);
  }

  lemma {:induction false} DepositCertificateRoundTrip(b: seq<byte>, c: DepositCertificate)
    ensures Decode(DEPOSIT_CERTIFICATE, b) == Ok(c)
       <==> |c.event.tx| <= MAX_TXID_LEN && QcFits(c.qc) && b == DEPOSIT_CERTIFICATE.write(c)
  {
    DepositCertificateExact();
    DepositCertificateShape(c);
    DecodeExact(DEPOSIT_CERTIFICATE, b, c);
  }

  type HeaderTuple = (u64, (Hash, Hash))

  function HeaderParts(h: BlockHeader): HeaderTuple {
    (h.number, (h.parentHash, h.inclusionRoot))
  }

  function HeaderOf(t: HeaderTuple): BlockHeader {
    BlockHeader(t.0, t.1.0, t.1.1)
  }

  /** `BlockHeader`. */
  const BLOCK_HEADER: Codec<BlockHeader> := As(Fields3(U64, HASH, HASH), HeaderOf, HeaderParts)

  lemma {:induction false} HeaderExact()
    ensures Exact(BLOCK_HEADER)
  {
    WordsExact();
    HashExact();
    Fields3Exact(U64, HASH, HASH);
    AsExact(Fields3(U64, HASH, HASH), HeaderOf, HeaderParts);
  }

  lemma {:induction false} HeaderShape(h: BlockHeader)
    ensures BLOCK_HEADER.fits(h)
    ensures BLOCK_HEADER.write(h) == U64.write(h.number) + (HASH.write(h.parentHash) + HASH.write(h.inclusionRoot))
  {
    Fields3Shape(U64, HASH, HASH, h.number, h.parentHash, h.inclusionRoot);
    AsShape(Fields3(U64, HASH, HASH), HeaderOf, HeaderParts, h);
  }

  lemma {:induction false} HeaderRoundTrip(b: seq<byte>, h: BlockHeader)
    ensures Decode(BLOCK_HEADER, b) == Ok(h) <==> b == BLOCK_HEADER.write(h)
  {
    HeaderExact();
    HeaderShape(h);
    DecodeExact(BLOCK_HEADER, b, h);
  }

  lemma {:induction false} HeaderSolid()
    ensures Solid(BLOCK_HEADER)
  {
    forall h: BlockHeader ensures |BLOCK_HEADER.write(h)| > 0 {
      HeaderShape(h);
    }
  }

  type InclusionTuple = (u32, seq<Hash>)

  function InclusionParts(p: InclusionProof): InclusionTuple {
    (p.leafIndex, p.siblings)
  }

  function InclusionOf(t: InclusionTuple): InclusionProof {
    InclusionProof(t.0, t.1)
  }

  /** `InclusionProof`. */
  const INCLUSION: Codec<InclusionProof> :=
    As(Both(U32, ListOf(HASH, MAX_INCLUSION_DEPTH)), InclusionOf, InclusionParts)

  lemma {:induction false} InclusionExact()
    ensures Exact(INCLUSION)
  {
    WordsExact();
    HashExact();
    ListExact(HASH, MAX_INCLUSION_DEPTH);
    BothExact(U32, ListOf(HASH, MAX_INCLUSION_DEPTH));
    AsExact(Both(U32, ListOf(HASH, MAX_INCLUSION_DEPTH)), InclusionOf, InclusionParts);
  }

  lemma {:induction false} InclusionShape(p: InclusionProof)
    ensures INCLUSION.fits(p) <==> |p.siblings| <= MAX_INCLUSION_DEPTH
    ensures INCLUSION.write(p) == U32.write(p.leafIndex) + ListOf(HASH, MAX_INCLUSION_DEPTH).write(p.siblings)
  {
    BothShape(U32, ListOf(HASH, MAX_INCLUSION_DEPTH), p.leafIndex, p.siblings);
    AsShape(Both(U32, ListOf(HASH, MAX_INCLUSION_DEPTH)), InclusionOf, InclusionParts, p);
  }

  lemma {:induction false} InclusionRoundTrip(b: seq<byte>, p: InclusionProof)
    ensures Decode(INCLUSION, b) == Ok(p) <==> |p.siblings| <= MAX_INCLUSION_DEPTH && b == INCLUSION.write(p)
  {
    InclusionExact();
    InclusionShape(p);
    DecodeExact(INCLUSION, b, p);
  }

  type WitnessTuple = (seq<BlockHeader>, InclusionProof)

  function WitnessParts(w: FinalityWitness): WitnessTuple {
    (w.headers, w.inclusion)
  }

  function WitnessOf(t: WitnessTuple): FinalityWitness {
    FinalityWitness(t.0, t.1)
  }

  /** `FinalityWitness`. */
  const WITNESS: Codec<FinalityWitness> :=
    As(Both(ListOf(BLOCK_HEADER, MAX_WITNESS_HEADERS), INCLUSION), WitnessOf, WitnessParts)

  lemma {:induction false} WitnessExact()
    ensures Exact(WITNESS)
  {
    HeaderExact();
    HeaderSolid();
    ListExact(BLOCK_HEADER, MAX_WITNESS_HEADERS);
    InclusionExact();
    BothExact(ListOf(BLOCK_HEADER, MAX_WITNESS_HEADERS), INCLUSION);
    AsExact(Both(ListOf(BLOCK_HEADER, MAX_WITNESS_HEADERS), INCLUSION), WitnessOf, WitnessParts);
  }

  lemma {:induction false} WitnessShape(w: FinalityWitness)
    ensures WITNESS.fits(w) <==> |w.headers| <= MAX_WITNESS_HEADERS && |w.inclusion.siblings| <= MAX_INCLUSION_DEPTH
    ensures WITNESS.write(w)
         == ListOf(BLOCK_HEADER, MAX_WITNESS_HEADERS).write(w.headers) + INCLUSION.write(w.inclusion)
  {
    BothShape(ListOf(BLOCK_HEADER, MAX_WITNESS_HEADERS), INCLUSION, w.headers, w.inclusion);
    InclusionShape(w.inclusion);
    AsShape(Both(ListOf(BLOCK_HEADER, MAX_WITNESS_HEADERS), INCLUSION), WitnessOf, WitnessParts, w);
  }

  lemma {:induction false} WitnessRoundTrip(b: seq<byte>, w: FinalityWitness)
    ensures Decode(WITNESS, b) == Ok(w)
       <==> |w.headers| <= MAX_WITNESS_HEADERS && |w.inclusion.siblings| <= MAX_INCLUSION_DEPTH
            && b == WITNESS.write(w)
  {
    WitnessExact();
    WitnessShape(w);
    DecodeExact(WITNESS, b, w);
  }

  function StatusBytes(s: WithdrawalStatus): seq<byte> {
    match s
    case Pending => [0]
    case Confirming(n) => [1] + BE(n, 4)
    case Finalized => [2]
    case Failed => [3]
  }

  function ReadStatus(b: seq<byte>): Reading<WithdrawalStatus> {
    var (tag, rest) :- ReadU8(b);
    if tag == 0 then Ok((Pending, rest))
    else if tag == 1 then
      var (n, rest') :- ReadU32(rest);
      Ok((Confirming(n), rest'))
    else if tag == 2 then Ok((Finalized, rest))
    else if tag == 3 then Ok((Failed, rest))
    else Err(InvalidTag(tag))
  }

  /** `WithdrawalStatus`: a tag byte, then that variant's fields. */
  const STATUS: Codec<WithdrawalStatus> :=
    Codec((s: WithdrawalStatus) => StatusBytes(s), (b: seq<byte>) => ReadStatus(b), (s: WithdrawalStatus) => true)

  lemma {:induction false} StatusExact()
    ensures Exact(STATUS)
  {
    forall b, s: WithdrawalStatus, rest ensures ExactAt(STATUS, b, s, rest) { StatusExactAt(b, s, rest); }
  }

  lemma {:induction false} StatusExactAt(b: seq<byte>, s: WithdrawalStatus, rest: seq<byte>)
    ensures ReadStatus(b) == Ok((s, rest)) <==> b == StatusBytes(s) + rest
  {
    if b != [] {
      var left := b[1..];
      TagExact(b);
      if s.Confirming? {
        WordsExact();
        Regroup([1], BE(s.confirmations, 4), rest);
        assert ExactAt(U32, left, s.confirmations, rest);
        assert U32.read(left) == ReadU32(left) && U32.write(s.confirmations) == BE(s.confirmations, 4);
      }
      assert b == [b[0]] + left;
      assert forall x: byte, y: seq<byte> :: b == [x] + y ==> x == b[0] && y == left;
    }
  }

  lemma {:induction false} TagExact(b: seq<byte>)
    requires b != []
    ensures ReadU8(b) == Ok((b[0], b[1..]))
  {
    assert b[..1] == [b[0]];
    assert FromBE([b[0]]) == 256 * FromBE([b[0]][..0]) + b[0];
  }

  lemma {:induction false} StatusRoundTrip(b: seq<byte>, s: WithdrawalStatus)
    ensures Decode(STATUS, b) == Ok(s) <==> b == STATUS.write(s)
  {
    StatusExact();
    DecodeExact(STATUS, b, s);
  }

  type RequestTuple = (u32, (u64, (seq<byte>, (u32, (i128, (u64, (u64, seq<byte>)))))))

  function RequestParts(r: WithdrawalRequest): RequestTuple {
    (r.account, (r.chain, (r.address, (r.asset, (r.amount, (r.nonce, (r.expiresAt, r.userSignature)))))))
  }

  function RequestOf(t: RequestTuple): WithdrawalRequest {
    WithdrawalRequest(t.0, t.1.0, t.1.1.0, t.1.1.1.0, t.1.1.1.1.0, t.1.1.1.1.1.0, t.1.1.1.1.1.1.0, t.1.1.1.1.1.1.1)
  }

  /** `WithdrawalRequest`. */
  const REQUEST_FIELDS: Codec<RequestTuple> :=
    Fields8(U32, U64, Blob(MAX_ADDRESS_LEN), U32, I128, U64, U64, Blob(MAX_USER_SIG_LEN))

  const REQUEST: Codec<WithdrawalRequest> := As(REQUEST_FIELDS, RequestOf, RequestParts)

  lemma {:induction false} RequestExact()
    ensures Exact(REQUEST)
  {
    WordsExact();
    I128Exact();
    BlobsExact(MAX_ADDRESS_LEN);
    BlobsExact(MAX_USER_SIG_LEN);
    Fields8Exact(U32, U64, Blob(MAX_ADDRESS_LEN), U32, I128, U64, U64, Blob(MAX_USER_SIG_LEN));
    AsExact(REQUEST_FIELDS, RequestOf, RequestParts);
  }

  lemma {:induction false} RequestShape(r: WithdrawalRequest)
    ensures REQUEST.fits(r) <==> |r.address| <= MAX_ADDRESS_LEN && |r.userSignature| <= MAX_USER_SIG_LEN
    ensures REQUEST.write(r)
         == U32.write(r.account) + (U64.write(r.chain) + (Blob(MAX_ADDRESS_LEN).write(r.address)
            + (U32.write(r.asset) + (I128.write(r.amount) + (U64.write(r.nonce) + (U64.write(r.expiresAt)
            + Blob(MAX_USER_SIG_LEN).write(r.userSignature)))))))
  {
    Fields8Shape(U32, U64, Blob(MAX_ADDRESS_LEN), U32, I128, U64, U64, Blob(MAX_USER_SIG_LEN), r.account, r.chain,
      r.address, r.asset, r.amount, r.nonce, r.expiresAt, r.userSignature);
    AsShape(REQUEST_FIELDS, RequestOf, RequestParts, r);
  }

  lemma {:induction false} RequestRoundTrip(b: seq<byte>, r: WithdrawalRequest)
    ensures Decode(REQUEST, b) == Ok(r)
       <==> |r.address| <= MAX_ADDRESS_LEN && |r.userSignature| <= MAX_USER_SIG_LEN && b == REQUEST.write(r)
  {
    RequestExact();
    RequestShape(r);
    DecodeExact(REQUEST, b, r);
  }

  type UnsignedTxTuple = (u64, (Hash, (seq<byte>, (u32, (i128, (u64, seq<byte>))))))

  function UnsignedTxParts(u: UnsignedTx): UnsignedTxTuple {
    (u.chain, (u.id, (u.to, (u.asset, (u.amount, (u.nonce, u.payload))))))
  }

  function UnsignedTxOf(t: UnsignedTxTuple): UnsignedTx {
    UnsignedTx(t.0, t.1.0, t.1.1.0, t.1.1.1.0, t.1.1.1.1.0, t.1.1.1.1.1.0, t.1.1.1.1.1.1)
  }

  /** `UnsignedTx`, whose byte strings have no bound but the machine's. */
  const UNSIGNED_TX: Codec<UnsignedTx> :=
    As(Fields7(U64, HASH, Blob(UNBOUNDED), U32, I128, U64, Blob(UNBOUNDED)), UnsignedTxOf, UnsignedTxParts)

  lemma {:induction false} UnsignedTxExact()
    ensures Exact(UNSIGNED_TX)
  {
    WordsExact();
    I128Exact();
    HashExact();
    BlobsExact(UNBOUNDED);
    Fields7Exact(U64, HASH, Blob(UNBOUNDED), U32, I128, U64, Blob(UNBOUNDED));
    AsExact(Fields7(U64, HASH, Blob(UNBOUNDED), U32, I128, U64, Blob(UNBOUNDED)), UnsignedTxOf, UnsignedTxParts);
  }

  lemma {:induction false} UnsignedTxShape(u: UnsignedTx)
    ensures UNSIGNED_TX.fits(u) <==> |u.to| < U64_SIZE && |u.payload| < U64_SIZE
    ensures UNSIGNED_TX.write(u)
         == U64.write(u.chain) + (HASH.write(u.id) + (Blob(UNBOUNDED).write(u.to) + (U32.write(u.asset)
            + (I128.write(u.amount) + (U64.write(u.nonce) + Blob(UNBOUNDED).write(u.payload))))))
  {
    Fields7Shape(U64, HASH, Blob(UNBOUNDED), U32, I128, U64, Blob(UNBOUNDED), u.chain, u.id, u.to, u.asset, u.amount,
      u.nonce, u.payload);
    AsShape(Fields7(U64, HASH, Blob(UNBOUNDED), U32, I128, U64, Blob(UNBOUNDED)), UnsignedTxOf, UnsignedTxParts, u);
  }

  lemma {:induction false} UnsignedTxRoundTrip(b: seq<byte>, u: UnsignedTx)
    ensures Decode(UNSIGNED_TX, b) == Ok(u)
       <==> |u.to| < U64_SIZE && |u.payload| < U64_SIZE && b == UNSIGNED_TX.write(u)
  {
    UnsignedTxExact();
    UnsignedTxShape(u);
    DecodeExact(UNSIGNED_TX, b, u);
  }

  type WithdrawalCertificateTuple = (Hash, (u64, (seq<byte>, (u32, (i128, (FinalityProof, (u64, QuorumCertificate)))))))

  function WithdrawalCertificateParts(c: WithdrawalCertificate): WithdrawalCertificateTuple {
    (c.id, (c.chain, (c.tx, (c.asset, (c.amount, (c.proof, (c.observerBitmap, c.qc)))))))
  }

  function WithdrawalCertificateOf(t: WithdrawalCertificateTuple): WithdrawalCertificate {
    WithdrawalCertificate(t.0, t.1.0, t.1.1.0, t.1.1.1.0, t.1.1.1.1.0, t.1.1.1.1.1.0, t.1.1.1.1.1.1.0, t.1.1.1.1.1.1.1)
  }

  /** `WithdrawalCertificate`. */
  const WITHDRAWAL_CERTIFICATE_FIELDS: Codec<WithdrawalCertificateTuple> :=
    Fields8(HASH, U64, Blob(MAX_TXID_LEN), U32, I128, PROOF, U64, QC)

  const WITHDRAWAL_CERTIFICATE: Codec<WithdrawalCertificate> :=
    As(WITHDRAWAL_CERTIFICATE_FIELDS, WithdrawalCertificateOf, WithdrawalCertificateParts)

  lemma {:induction false} WithdrawalCertificateExact()
    ensures Exact(WITHDRAWAL_CERTIFICATE)
  {
    WordsExact();
    I128Exact();
    HashExact();
    BlobsExact(MAX_TXID_LEN);
    ProofExact();
    QcExact();
    Fields8Exact(HASH, U64, Blob(MAX_TXID_LEN), U32, I128, PROOF, U64, QC);
    AsExact(WITHDRAWAL_CERTIFICATE_FIELDS, WithdrawalCertificateOf, WithdrawalCertificateParts);
  }

  lemma {:induction false} WithdrawalCertificateShape(c: WithdrawalCertificate)
    ensures WITHDRAWAL_CERTIFICATE.fits(c) <==> |c.tx| <= MAX_TXID_LEN && QcFits(c.qc)
    ensures WITHDRAWAL_CERTIFICATE.write(c)
         == HASH.write(c.id) + (U64.write(c.chain) + (Blob(MAX_TXID_LEN).write(c.tx) + (U32.write(c.asset)
            + (I128.write(c.amount) + (PROOF.write(c.proof) + (U64.write(c.observerBitmap) + QC.write(c.qc)))))))
  {
    WithdrawalFieldsShape(c);
    QcShape(c.qc);
    AsShape(WITHDRAWAL_CERTIFICATE_FIELDS, WithdrawalCertificateOf, WithdrawalCertificateParts, c);
  }

  lemma {:induction false} WithdrawalFieldsShape(c: WithdrawalCertificate)
    ensures WITHDRAWAL_CERTIFICATE_FIELDS.fits(WithdrawalCertificateParts(c))
       <==> Blob(MAX_TXID_LEN).fits(c.tx) && QC.fits(c.qc)
    ensures WITHDRAWAL_CERTIFICATE_FIELDS.write(WithdrawalCertificateParts(c))
         == HASH.write(c.id) + (U64.write(c.chain) + (Blob(MAX_TXID_LEN).write(c.tx) + (U32.write(c.asset)
            + (I128.write(c.amount) + (PROOF.write(c.proof) + (U64.write(c.observerBitmap) + QC.write(c.qc)))))))
  {
    Fields8Shape(HASH, U64, Blob(MAX_TXID_LEN), U32, I128, PROOF, U64, QC, c.id, c.chain, c.tx, c.asset, c.amount,
      c.proof, c.observerBitmap, c.qc);
  }

  lemma {:induction false} WithdrawalCertificateRoundTrip(b: seq<byte>, c: WithdrawalCertificate)
    ensures Decode(WITHDRAWAL_CERTIFICATE, b) == Ok(c)
       <==> |c.tx| <= MAX_TXID_LEN && QcFits(c.qc) && b == WITHDRAWAL_CERTIFICATE.write(c)
  {
    WithdrawalCertificateExact();
    WithdrawalCertificateShape(c);
    DecodeExact(WITHDRAWAL_CERTIFICATE, b, c);
  }

  // ---- hashed bodies -------------------------------------------------------

  /** The body `deposit_body_hash` writes, for a transaction id of any length a vector can have. */
  function DepositBytes(e: DepositEvent, p: FinalityProof): seq<byte> {
    Deposit(UNBOUNDED).write(VerifiedDeposit(e, p))
  }

  /** A deposit's signed message determines every certified field. */
  lemma {:induction false} DepositBytesInjective(e: DepositEvent, p: FinalityProof, e': DepositEvent, p': FinalityProof)
    requires |e.tx| < U64_SIZE && |e'.tx| < U64_SIZE
    requires DepositBytes(e, p) == DepositBytes(e', p')
    ensures e == e' && p == p'
  {
    DepositExact(UNBOUNDED);
    DepositShape(UNBOUNDED, VerifiedDeposit(e, p));
    DepositShape(UNBOUNDED, VerifiedDeposit(e', p'));
    WriteInjective(Deposit(UNBOUNDED), VerifiedDeposit(e, p), VerifiedDeposit(e', p'));
  }

  type SigningTuple = (u32, (u64, (seq<byte>, (u32, (i128, (u64, u64))))))

  const SIGNING: Codec<SigningTuple> :=
    Fields7(U32, U64, Blob(UNBOUNDED), U32, I128, U64, U64)

  function SigningParts(r: WithdrawalRequest): SigningTuple {
    (r.account, (r.chain, (r.address, (r.asset, (r.amount, (r.nonce, r.expiresAt))))))
  }

  /** The body `signing_hash` writes: the request without the user's signature. */
  function SigningBytes(r: WithdrawalRequest): seq<byte> { SIGNING.write(SigningParts(r)) }

  lemma {:induction false} SigningShape(r: WithdrawalRequest)
    ensures SigningBytes(r)
         == BE(r.account, 4) + (BE(r.chain, 8) + ((LenBytes(|r.address|) + r.address)
            + (BE(r.asset, 4) + (I128Bytes(r.amount) + (BE(r.nonce, 8) + BE(r.expiresAt, 8))))))
  {
    Fields7Shape(U32, U64, Blob(UNBOUNDED), U32, I128, U64, U64,
      r.account, r.chain, r.address, r.asset, r.amount, r.nonce, r.expiresAt);
  }

  lemma {:induction false} SigningExact()
    ensures Exact(SIGNING)
  {
    WordsExact();
    I128Exact();
    BlobsExact(UNBOUNDED);
    Fields7Exact(U32, U64, Blob(UNBOUNDED), U32, I128, U64, U64);
  }

  /** Requests with equal signed bodies differ at most in the user's signature. */
  lemma {:induction false} SigningBytesInjective(r: WithdrawalRequest, q: WithdrawalRequest)
    requires |r.address| < U64_SIZE && |q.address| < U64_SIZE
    requires SigningBytes(r) == SigningBytes(q)
    ensures q == r.(userSignature := q.userSignature)
  {
    SigningExact();
    WriteInjective(SIGNING, SigningParts(r), SigningParts(q));
  }

  type SettlementTuple = (Hash, (u64, (seq<byte>, (u32, (i128, FinalityProof)))))

  const SETTLEMENT: Codec<SettlementTuple> :=
    Fields6(HASH, U64, Blob(UNBOUNDED), U32, I128, PROOF)

  function SettlementParts(c: WithdrawalCertificate): SettlementTuple {
    (c.id, (c.chain, (c.tx, (c.asset, (c.amount, c.proof)))))
  }

  /** The body `withdrawal_cert_body_hash` writes. */
  function WithdrawalBytes(c: WithdrawalCertificate): seq<byte> { SETTLEMENT.write(SettlementParts(c)) }

  lemma {:induction false} SettlementShape(c: WithdrawalCertificate)
    ensures WithdrawalBytes(c)
         == AsBytes(c.id) + (BE(c.chain, 8) + ((LenBytes(|c.tx|) + c.tx)
            + (BE(c.asset, 4) + (I128Bytes(c.amount) + PROOF.write(c.proof)))))
  {
    Fields6Shape(HASH, U64, Blob(UNBOUNDED), U32, I128, PROOF, c.id, c.chain, c.tx, c.asset, c.amount, c.proof);
  }

  lemma {:induction false} SettlementExact()
    ensures Exact(SETTLEMENT)
  {
    WordsExact();
    I128Exact();
    HashExact();
    BlobsExact(UNBOUNDED);
    ProofExact();
    Fields6Exact(HASH, U64, Blob(UNBOUNDED), U32, I128, PROOF);
  }

  /** A settlement certificate's message determines every field but the bitmap and the signatures. */
  lemma {:induction false} WithdrawalBytesInjective(c: WithdrawalCertificate, d: WithdrawalCertificate)
    requires |c.tx| < U64_SIZE && |d.tx| < U64_SIZE
    requires WithdrawalBytes(c) == WithdrawalBytes(d)
    ensures d == c.(observerBitmap := d.observerBitmap, qc := d.qc)
  {
    SettlementExact();
    WriteInjective(SETTLEMENT, SettlementParts(c), SettlementParts(d));
  }

  // ---- certificates --------------------------------------------------------

  const DOMAIN_DEPOSIT := Ascii("dexos:custody:deposit:v1")
  const DOMAIN_WITHDRAWAL_ID := Ascii("dexos:custody:withdrawal-id:v1")

  function DepositMessage(sha: Sha, c: DepositCertificate): Hash {
    HashDomain(sha, DOMAIN_DEPOSIT, DepositBytes(c.event, c.proof))
  }

  datatype AdapterError =
    | NotFinal(have: u32, need: u32) | QuorumNotMet | BadSignature | InvalidWitness | InvalidInclusion
    | ReplayedNonce | UnknownTx | IllegalTransition

  ghost predicate DepositAccepted(
    sha: Sha, valid: Verifier, observers: ValidatorSet, minConfirmations: u32, c: DepositCertificate)
  {
    && c.proof.confirmations >= minConfirmations
    && c.observerBitmap == c.qc.signerBitmap
    && c.qc.message == DepositMessage(sha, c)
    && Certified(valid, observers.validators, observers.threshold, c.qc)
  }

  /** `DepositCertificate::verify`. */
  method VerifyDeposit(
    sha: Sha, valid: Verifier, observers: ValidatorSet, minConfirmations: u32, c: DepositCertificate)
    returns (r: Result<(), AdapterError>)
    requires ValidSet(observers)
    ensures r.Ok? <==> DepositAccepted(sha, valid, observers, minConfirmations, c)
    ensures c.proof.confirmations < minConfirmations ==> r == Err(NotFinal(c.proof.confirmations, minConfirmations))
  {
    if c.proof.confirmations < minConfirmations { return Err(NotFinal(c.proof.confirmations, minConfirmations)); }
    if c.observerBitmap != c.qc.signerBitmap { return Err(QuorumNotMet); }
    if c.qc.message != DepositMessage(sha, c) { return Err(QuorumNotMet); }
    var q := Verify(valid, observers, c.qc);
    if q.Err? { return Err(if q.error.InvalidSignature? then BadSignature else QuorumNotMet); }
    return Ok(());
  }

  /** Accepted certificates over one signed message credit one and the same deposit. */
  lemma {:induction false} DepositMessageBinds(
    sha: Sha, valid: Verifier, observers: ValidatorSet, min: u32, preimages: iset<seq<byte>>,
    c: DepositCertificate, d: DepositCertificate)
    requires |c.event.tx| < U64_SIZE && |d.event.tx| < U64_SIZE
    requires CollisionFree(sha, preimages)
    requires Preimage(DOMAIN_DEPOSIT, DepositBytes(c.event, c.proof)) in preimages
    requires Preimage(DOMAIN_DEPOSIT, DepositBytes(d.event, d.proof)) in preimages
    requires DepositAccepted(sha, valid, observers, min, c) && DepositAccepted(sha, valid, observers, min, d)
    requires c.qc.message == d.qc.message
    ensures c.event == d.event && c.proof == d.proof
  {
    var x, y := DepositBytes(c.event, c.proof), DepositBytes(d.event, d.proof);
    assert Collide(sha, Preimage(DOMAIN_DEPOSIT, x), Preimage(DOMAIN_DEPOSIT, y));
    PreimageInjective(DOMAIN_DEPOSIT, x, DOMAIN_DEPOSIT, y);
    DepositBytesInjective(c.event, c.proof, d.event, d.proof);
  }

  /** `WithdrawalRequest::id`. */
  function RequestId(sha: Sha, r: WithdrawalRequest): Hash {
    HashDomain(sha, DOMAIN_WITHDRAWAL_ID, SigningBytes(r))
  }

  function RequestPreimage(r: WithdrawalRequest): seq<byte> {
    Preimage(DOMAIN_WITHDRAWAL_ID, SigningBytes(r))
  }

  /** Withdrawal ids are collision-free exactly as far as the hash is. */
  lemma {:induction false} RequestIdBinds(
    sha: Sha, preimages: iset<seq<byte>>, r: WithdrawalRequest, q: WithdrawalRequest)
    requires |r.address| < U64_SIZE && |q.address| < U64_SIZE
    requires CollisionFree(sha, preimages) && RequestPreimage(r) in preimages && RequestPreimage(q) in preimages
    ensures RequestId(sha, r) == RequestId(sha, q) <==> q == r.(userSignature := q.userSignature)
  {
    if RequestId(sha, r) == RequestId(sha, q) {
      assert Collide(sha, RequestPreimage(r), RequestPreimage(q));
      PreimageInjective(DOMAIN_WITHDRAWAL_ID, SigningBytes(r), DOMAIN_WITHDRAWAL_ID, SigningBytes(q));
      SigningBytesInjective(r, q);
    }
  }
}

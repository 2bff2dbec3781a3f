/** The custody types' `write` and `read`, field by field over the mutable writer and reader. */
module CustodyIo {
  import opened Bytes
  import opened Hashing
  import opened Quorum
  import opened CustodyCodec
  import opened Custody

  lemma {:induction false} Regroup3(w: seq<byte>, a: seq<byte>, b: seq<byte>, c: seq<byte>)
    ensures ((w + a) + b) + c == w + (a + (b + c))
  {
    Regroup(w + a, b, c);
    Regroup(w, a, b + c);
  }

  lemma {:induction false} Regroup4(w: seq<byte>, a: seq<byte>, b: seq<byte>, c: seq<byte>, d: seq<byte>)
    ensures (((w + a) + b) + c) + d == w + (a + (b + (c + d)))
  {
    Regroup3(w + a, b, c, d);
    Regroup(w, a, b + (c + d));
  }

  lemma {:induction false} Regroup5(w: seq<byte>, a: seq<byte>, b: seq<byte>, c: seq<byte>, d: seq<byte>, e: seq<byte>)
    ensures ((((w + a) + b) + c) + d) + e == w + (a + (b + (c + (d + e))))
  {
    Regroup4(w + a, b, c, d, e);
    Regroup(w, a, b + (c + (d + e)));
  }

  lemma {:induction false} Regroup6(
    w: seq<byte>, a: seq<byte>, b: seq<byte>, c: seq<byte>, d: seq<byte>, e: seq<byte>, f: seq<byte>)
    ensures (((((w + a) + b) + c) + d) + e) + f == w + (a + (b + (c + (d + (e + f)))))
  {
    Regroup5(w + a, b, c, d, e, f);
    Regroup(w, a, b + (c + (d + (e + f))));
  }

  lemma {:induction false} Regroup7(
    w: seq<byte>, a: seq<byte>, b: seq<byte>, c: seq<byte>, d: seq<byte>, e: seq<byte>, f: seq<byte>, g: seq<byte>)
    ensures ((((((w + a) + b) + c) + d) + e) + f) + g == w + (a + (b + (c + (d + (e + (f + g))))))
  {
    Regroup6(w + a, b, c, d, e, f, g);
    Regroup(w, a, b + (c + (d + (e + (f + g)))));
  }

  lemma {:induction false} Regroup8(
    w: seq<byte>, a: seq<byte>, b: seq<byte>, c: seq<byte>, d: seq<byte>,
    e: seq<byte>, f: seq<byte>, g: seq<byte>, h: seq<byte>)
    ensures (((((((w + a) + b) + c) + d) + e) + f) + g) + h == w + (a + (b + (c + (d + (e + (f + (g + h)))))))
  {
    Regroup7(w + a, b, c, d, e, f, g, h);
    Regroup(w, a, b + (c + (d + (e + (f + (g + h))))));
  }

  /** `FinalityProof`. */
  method PutProof(w: Writer, p: FinalityProof)
    modifies w
    ensures w.buf == old(w.buf) + PROOF.write(p)
  {
    ProofShape(p);
    Regroup3(w.buf, BE(p.blockNumber, 8), AsBytes(p.blockHash), BE(p.confirmations, 4));
    w.PutWord(p.blockNumber, 8);
    w.PutHash(p.blockHash);
    w.PutWord(p.confirmations, 4);
  }

  method GetProof(r: Reader) returns (x: Result<FinalityProof, CodecError>)
    requires r.Valid()
    modifies r
    ensures r.Valid() && r.Agrees(x, PROOF.read(old(r.Left())))
  {
    var blockNumber :- r.GetU64();
    var blockHash :- r.GetHash();
    var confirmations :- r.GetU32();
    return Ok(FinalityProof(blockNumber, blockHash, confirmations));
  }

  /** A certificate's signatures. */
  method PutSignatures(w: Writer, xs: seq<Sig>)
    modifies w
    ensures w.buf == old(w.buf) + ListOf(Fixed(64), MAX_QUORUM_SIGNATURES).write(xs)
  {
    w.PutLen(|xs|);
    ghost var was := w.buf;
    for i := 0 to |xs|
      invariant w.buf == was + WriteAll(Fixed(64), xs[..i])
    {
      WriteAllStep(Fixed(64), was, xs, i);
      w.PutAll(xs[i]);
    }
    assert xs[..|xs|] == xs;
    Regroup(old(w.buf), LenBytes(|xs|), WriteAll(Fixed(64), xs));
  }

  method GetSignatures(r: Reader) returns (x: Result<seq<Sig>, CodecError>)
    requires r.Valid()
    modifies r
    ensures r.Valid() && r.Agrees(x, ListOf(Fixed(64), MAX_QUORUM_SIGNATURES).read(old(r.Left())))
  {
    var n :- r.GetLen();
    if n > MAX_QUORUM_SIGNATURES { return Err(LengthOutOfRange); }
    x := GetSignaturesItems(r, n);
  }

  method GetSignaturesItems(r: Reader, n: nat) returns (x: Result<seq<Sig>, CodecError>)
    requires r.Valid()
    modifies r
    ensures r.Valid() && r.Agrees(x, ReadAll(Fixed(64), n, old(r.Left())))
  {
    ghost var all := ReadAll(Fixed(64), n, r.Left());
    var xs: seq<Sig> := [];
    ResumeEnds(Fixed(64), xs, all, r.Left());
    for i := 0 to n
      invariant r.Valid() && Resume(xs, ReadAll(Fixed(64), n - i, r.Left())) == all
    {
      ResumeStep(Fixed(64), xs, n - i, r.Left());
      var one :- r.TakeBytes(64);
      xs := xs + [one];
    }
    ResumeEnds(Fixed(64), xs, all, r.Left());
    return Ok(xs);
  }

  /** `QuorumCertificate`. */
  method PutQc(w: Writer, q: QuorumCertificate)
    modifies w
    ensures w.buf == old(w.buf) + QC.write(q)
  {
    QcShape(q);
    Regroup3(w.buf, AsBytes(q.message), BE(q.signerBitmap, 2),
      ListOf(Fixed(64), MAX_QUORUM_SIGNATURES).write(q.signatures));
    w.PutHash(q.message);
    w.PutWord(q.signerBitmap, 2);
    PutSignatures(w, q.signatures);
  }

  method GetQc(r: Reader) returns (x: Result<QuorumCertificate, CodecError>)
    requires r.Valid()
    modifies r
    ensures r.Valid() && r.Agrees(x, QC.read(old(r.Left())))
  {
    var message :- r.GetHash();
    var signerBitmap :- r.GetU16();
    var signatures :- GetSignatures(r);
    return Ok(QuorumCertificate(message, signerBitmap, signatures));
  }

  /** `DepositEvent`. */
  method PutEvent(w: Writer, e: DepositEvent, ghost max: nat)
    modifies w
    ensures w.buf == old(w.buf) + Event(max).write(e)
  {
    EventShape(max, e);
    Regroup6(w.buf, BE(e.chain, 8), LenBytes(|e.tx|) + e.tx, BE(e.index, 4), BE(e.asset, 4), I128Bytes(e.amount),
      BE(e.account, 4));
    w.PutWord(e.chain, 8);
    w.PutBlob(e.tx);
    w.PutWord(e.index, 4);
    w.PutWord(e.asset, 4);
    w.PutI128(e.amount);
    w.PutWord(e.account, 4);
  }

  method GetEvent(r: Reader) returns (x: Result<DepositEvent, CodecError>)
    requires r.Valid()
    modifies r
    ensures r.Valid() && r.Agrees(x, Event(MAX_TXID_LEN).read(old(r.Left())))
  {
    var chain :- r.GetU64();
    var tx :- r.GetBlob(MAX_TXID_LEN);
    var index :- r.GetU32();
    var asset :- r.GetU32();
    var amount :- r.GetI128();
    var account :- r.GetU32();
    return Ok(DepositEvent(chain, tx, index, asset, amount, account));
  }

  /** `VerifiedDeposit`. */
  method PutDeposit(w: Writer, d: VerifiedDeposit, ghost max: nat)
    modifies w
    ensures w.buf == old(w.buf) + Deposit(max).write(d)
  {
    DepositShape(max, d);
    Regroup(w.buf, Event(max).write(d.event), PROOF.write(d.proof));
    PutEvent(w, d.event, max);
    PutProof(w, d.proof);
  }

  method GetDeposit(r: Reader) returns (x: Result<VerifiedDeposit, CodecError>)
    requires r.Valid()
    modifies r
    ensures r.Valid() && r.Agrees(x, Deposit(MAX_TXID_LEN).read(old(r.Left())))
  {
    var event :- GetEvent(r);
    var proof :- GetProof(r);
    return Ok(VerifiedDeposit(event, proof));
  }

  /** `DepositCertificate`. */
  method PutDepositCertificate(w: Writer, c: DepositCertificate)
    modifies w
    ensures w.buf == old(w.buf) + DEPOSIT_CERTIFICATE.write(c)
  {
    DepositCertificateShape(c);
    Regroup4(w.buf, Event(MAX_TXID_LEN).write(c.event), PROOF.write(c.proof), BE(c.observerBitmap, 8), QC.write(c.qc));
    PutEvent(w, c.event, MAX_TXID_LEN);
    PutProof(w, c.proof);
    w.PutWord(c.observerBitmap, 8);
    PutQc(w, c.qc);
  }

  method GetDepositCertificate(r: Reader) returns (x: Result<DepositCertificate, CodecError>)
    requires r.Valid()
    modifies r
    ensures r.Valid() && r.Agrees(x, DEPOSIT_CERTIFICATE.read(old(r.Left())))
  {
    var event :- GetEvent(r);
    var proof :- GetProof(r);
    var observerBitmap :- r.GetU64();
    var qc :- GetQc(r);
    return Ok(DepositCertificate(event, proof, observerBitmap, qc));
  }

  /** `BlockHeader`. */
  method PutHeader(w: Writer, h: BlockHeader)
    modifies w
    ensures w.buf == old(w.buf) + BLOCK_HEADER.write(h)
  {
    HeaderShape(h);
    Regroup3(w.buf, BE(h.number, 8), AsBytes(h.parentHash), AsBytes(h.inclusionRoot));
    w.PutWord(h.number, 8);
    w.PutHash(h.parentHash);
    w.PutHash(h.inclusionRoot);
  }

  method GetHeader(r: Reader) returns (x: Result<BlockHeader, CodecError>)
    requires r.Valid()
    modifies r
    ensures r.Valid() && r.Agrees(x, BLOCK_HEADER.read(old(r.Left())))
  {
    var number :- r.GetU64();
    var parentHash :- r.GetHash();
    var inclusionRoot :- r.GetHash();
    return Ok(BlockHeader(number, parentHash, inclusionRoot));
  }

  /** An inclusion proof's siblings. */
  method PutSiblings(w: Writer, xs: seq<Hash>)
    modifies w
    ensures w.buf == old(w.buf) + ListOf(HASH, MAX_INCLUSION_DEPTH).write(xs)
  {
    w.PutLen(|xs|);
    ghost var was := w.buf;
    for i := 0 to |xs|
      invariant w.buf == was + WriteAll(HASH, xs[..i])
    {
      WriteAllStep(HASH, was, xs, i);
      w.PutHash(xs[i]);
    }
    assert xs[..|xs|] == xs;
    Regroup(old(w.buf), LenBytes(|xs|), WriteAll(HASH, xs));
  }

  method GetSiblings(r: Reader) returns (x: Result<seq<Hash>, CodecError>)
    requires r.Valid()
    modifies r
    ensures r.Valid() && r.Agrees(x, ListOf(HASH, MAX_INCLUSION_DEPTH).read(old(r.Left())))
  {
    var n :- r.GetLen();
    if n > MAX_INCLUSION_DEPTH { return Err(LengthOutOfRange); }
    x := GetSiblingsItems(r, n);
  }

  method GetSiblingsItems(r: Reader, n: nat) returns (x: Result<seq<Hash>, CodecError>)
    requires r.Valid()
    modifies r
    ensures r.Valid() && r.Agrees(x, ReadAll(HASH, n, old(r.Left())))
  {
    ghost var all := ReadAll(HASH, n, r.Left());
    var xs: seq<Hash> := [];
    ResumeEnds(HASH, xs, all, r.Left());
    for i := 0 to n
      invariant r.Valid() && Resume(xs, ReadAll(HASH, n - i, r.Left())) == all
    {
      ResumeStep(HASH, xs, n - i, r.Left());
      var one :- r.GetHash();
      xs := xs + [one];
    }
    ResumeEnds(HASH, xs, all, r.Left());
    return Ok(xs);
  }

  /** `InclusionProof`. */
  method PutInclusion(w: Writer, p: InclusionProof)
    modifies w
    ensures w.buf == old(w.buf) + INCLUSION.write(p)
  {
    InclusionShape(p);
    Regroup(w.buf, BE(p.leafIndex, 4), ListOf(HASH, MAX_INCLUSION_DEPTH).write(p.siblings));
    w.PutWord(p.leafIndex, 4);
    PutSiblings(w, p.siblings);
  }

  method GetInclusion(r: Reader) returns (x: Result<InclusionProof, CodecError>)
    requires r.Valid()
    modifies r
    ensures r.Valid() && r.Agrees(x, INCLUSION.read(old(r.Left())))
  {
    var leafIndex :- r.GetU32();
    var siblings :- GetSiblings(r);
    return Ok(InclusionProof(leafIndex, siblings));
  }

  /** A witness's headers. */
  method PutHeaders(w: Writer, xs: seq<BlockHeader>)
    modifies w
    ensures w.buf == old(w.buf) + ListOf(BLOCK_HEADER, MAX_WITNESS_HEADERS).write(xs)
  {
    w.PutLen(|xs|);
    ghost var was := w.buf;
    for i := 0 to |xs|
      invariant w.buf == was + WriteAll(BLOCK_HEADER, xs[..i])
    {
      WriteAllStep(BLOCK_HEADER, was, xs, i);
      PutHeader(w, xs[i]);
    }
    assert xs[..|xs|] == xs;
    Regroup(old(w.buf), LenBytes(|xs|), WriteAll(BLOCK_HEADER, xs));
  }

  method GetHeaders(r: Reader) returns (x: Result<seq<BlockHeader>, CodecError>)
    requires r.Valid()
    modifies r
    ensures r.Valid() && r.Agrees(x, ListOf(BLOCK_HEADER, MAX_WITNESS_HEADERS).read(old(r.Left())))
  {
    var n :- r.GetLen();
    if n > MAX_WITNESS_HEADERS { return Err(LengthOutOfRange); }
    x := GetHeadersItems(r, n);
  }

  method GetHeadersItems(r: Reader, n: nat) returns (x: Result<seq<BlockHeader>, CodecError>)
    requires r.Valid()
    modifies r
    ensures r.Valid() && r.Agrees(x, ReadAll(BLOCK_HEADER, n, old(r.Left())))
  {
    ghost var all := ReadAll(BLOCK_HEADER, n, r.Left());
    var xs: seq<BlockHeader> := [];
    ResumeEnds(BLOCK_HEADER, xs, all, r.Left());
    for i := 0 to n
      invariant r.Valid() && Resume(xs, ReadAll(BLOCK_HEADER, n - i, r.Left())) == all
    {
      ResumeStep(BLOCK_HEADER, xs, n - i, r.Left());
      var one :- GetHeader(r);
      xs := xs + [one];
    }
    ResumeEnds(BLOCK_HEADER, xs, all, r.Left());
    return Ok(xs);
  }

  /** `FinalityWitness`. */
  method PutWitness(w: Writer, f: FinalityWitness)
    modifies w
    ensures w.buf == old(w.buf) + WITNESS.write(f)
  {
    WitnessShape(f);
    Regroup(w.buf, ListOf(BLOCK_HEADER, MAX_WITNESS_HEADERS).write(f.headers), INCLUSION.write(f.inclusion));
    PutHeaders(w, f.headers);
    PutInclusion(w, f.inclusion);
  }

  method GetWitness(r: Reader) returns (x: Result<FinalityWitness, CodecError>)
    requires r.Valid()
    modifies r
    ensures r.Valid() && r.Agrees(x, WITNESS.read(old(r.Left())))
  {
    var headers :- GetHeaders(r);
    var inclusion :- GetInclusion(r);
    return Ok(FinalityWitness(headers, inclusion));
  }

  /** `WithdrawalStatus`. */
  method PutStatus(w: Writer, s: WithdrawalStatus)
    modifies w
    ensures w.buf == old(w.buf) + STATUS.write(s)
  {
    match s
    case Pending => w.PutAll([0]);
    case Confirming(n) =>
      Regroup(w.buf, [1], BE(n, 4));
      w.PutAll([1]);
      w.PutWord(n, 4);
    case Finalized => w.PutAll([2]);
    case Failed => w.PutAll([3]);
  }

  method GetStatus(r: Reader) returns (x: Result<WithdrawalStatus, CodecError>)
    requires r.Valid()
    modifies r
    ensures r.Valid() && r.Agrees(x, STATUS.read(old(r.Left())))
  {
    var tag :- r.GetU8();
    if tag == 0 { return Ok(Pending); }
    if tag == 1 {
      var n :- r.GetU32();
      return Ok(Confirming(n));
    }
    if tag == 2 { return Ok(Finalized); }
    if tag == 3 { return Ok(Failed); }
    return Err(InvalidTag(tag));
  }

  /** `WithdrawalRequest`. */
  method PutRequest(w: Writer, q: WithdrawalRequest)
    modifies w
    ensures w.buf == old(w.buf) + REQUEST.write(q)
  {
    RequestShape(q);
    Regroup8(w.buf, BE(q.account, 4), BE(q.chain, 8), LenBytes(|q.address|) + q.address, BE(q.asset, 4),
      I128Bytes(q.amount), BE(q.nonce, 8), BE(q.expiresAt, 8), LenBytes(|q.userSignature|) + q.userSignature);
    w.PutWord(q.account, 4);
    w.PutWord(q.chain, 8);
    w.PutBlob(q.address);
    w.PutWord(q.asset, 4);
    w.PutI128(q.amount);
    w.PutWord(q.nonce, 8);
    w.PutWord(q.expiresAt, 8);
    w.PutBlob(q.userSignature);
  }

  method GetRequest(r: Reader) returns (x: Result<WithdrawalRequest, CodecError>)
    requires r.Valid()
    modifies r
    ensures r.Valid() && r.Agrees(x, REQUEST.read(old(r.Left())))
  {
    var account :- r.GetU32();
    var chain :- r.GetU64();
    var address :- r.GetBlob(MAX_ADDRESS_LEN);
    var asset :- r.GetU32();
    var amount :- r.GetI128();
    var nonce :- r.GetU64();
    var expiresAt :- r.GetU64();
    var userSignature :- r.GetBlob(MAX_USER_SIG_LEN);
    return Ok(WithdrawalRequest(account, chain, address, asset, amount, nonce, expiresAt, userSignature));
  }

  /** `UnsignedTx`. */
  method PutUnsignedTx(w: Writer, u: UnsignedTx)
    modifies w
    ensures w.buf == old(w.buf) + UNSIGNED_TX.write(u)
  {
    UnsignedTxShape(u);
    Regroup7(w.buf, BE(u.chain, 8), AsBytes(u.id), LenBytes(|u.to|) + u.to, BE(u.asset, 4), I128Bytes(u.amount),
      BE(u.nonce, 8), LenBytes(|u.payload|) + u.payload);
    w.PutWord(u.chain, 8);
    w.PutHash(u.id);
    w.PutBlob(u.to);
    w.PutWord(u.asset, 4);
    w.PutI128(u.amount);
    w.PutWord(u.nonce, 8);
    w.PutBlob(u.payload);
  }

  method GetUnsignedTx(r: Reader) returns (x: Result<UnsignedTx, CodecError>)
    requires r.Valid()
    modifies r
    ensures r.Valid() && r.Agrees(x, UNSIGNED_TX.read(old(r.Left())))
  {
    var chain :- r.GetU64();
    var id :- r.GetHash();
    var to :- r.GetBlob(UNBOUNDED);
    var asset :- r.GetU32();
    var amount :- r.GetI128();
    var nonce :- r.GetU64();
    var payload :- r.GetBlob(UNBOUNDED);
    return Ok(UnsignedTx(chain, id, to, asset, amount, nonce, payload));
  }

  /** `WithdrawalCertificate`. */
  method PutWithdrawalCertificate(w: Writer, c: WithdrawalCertificate)
    modifies w
    ensures w.buf == old(w.buf) + WITHDRAWAL_CERTIFICATE.write(c)
  {
    WithdrawalCertificateShape(c);
    Regroup8(w.buf, AsBytes(c.id), BE(c.chain, 8), LenBytes(|c.tx|) + c.tx, BE(c.asset, 4), I128Bytes(c.amount),
      PROOF.write(c.proof), BE(c.observerBitmap, 8), QC.write(c.qc));
    w.PutHash(c.id);
    w.PutWord(c.chain, 8);
    w.PutBlob(c.tx);
    w.PutWord(c.asset, 4);
    w.PutI128(c.amount);
    PutProof(w, c.proof);
    w.PutWord(c.observerBitmap, 8);
    PutQc(w, c.qc);
  }

  method GetWithdrawalCertificate(r: Reader) returns (x: Result<WithdrawalCertificate, CodecError>)
    requires r.Valid()
    modifies r
    ensures r.Valid() && r.Agrees(x, WITHDRAWAL_CERTIFICATE.read(old(r.Left())))
  {
    var id :- r.GetHash();
    var chain :- r.GetU64();
    var tx :- r.GetBlob(MAX_TXID_LEN);
    var asset :- r.GetU32();
    var amount :- r.GetI128();
    var proof :- GetProof(r);
    var observerBitmap :- r.GetU64();
    var qc :- GetQc(r);
    return Ok(WithdrawalCertificate(id, chain, tx, asset, amount, proof, observerBitmap, qc));
  }

  // ---- signed bodies -------------------------------------------------------

  /** The bytes `deposit_body_hash` hashes are written field by field in wire order. */
  method DepositBodyBytes(e: DepositEvent, p: FinalityProof) returns (body: seq<byte>)
    ensures body == DepositBytes(e, p)
  {
    var w := new Writer();
    DepositShape(UNBOUNDED, VerifiedDeposit(e, p));
    PutEvent(w, e, UNBOUNDED);
    PutProof(w, p);
    body := w.buf;
  }

  /** The bytes `signing_hash` hashes, field by field. */
  method SigningBodyBytes(r: WithdrawalRequest) returns (body: seq<byte>)
    ensures body == SigningBytes(r)
  {
    var w := new Writer();
    PutSigned(w, r);
    SigningShape(r);
    body := w.buf;
  }

  method PutSigned(w: Writer, r: WithdrawalRequest)
    modifies w
    ensures w.buf == old(w.buf) + (BE(r.account, 4) + (BE(r.chain, 8) + ((LenBytes(|r.address|) + r.address)
                       + (BE(r.asset, 4) + (I128Bytes(r.amount) + (BE(r.nonce, 8) + BE(r.expiresAt, 8)))))))
  {
    Regroup7(w.buf, BE(r.account, 4), BE(r.chain, 8), LenBytes(|r.address|) + r.address, BE(r.asset, 4),
      I128Bytes(r.amount), BE(r.nonce, 8), BE(r.expiresAt, 8));
    w.PutWord(r.account, 4);
    w.PutWord(r.chain, 8);
    w.PutBlob(r.address);
    w.PutWord(r.asset, 4);
    w.PutI128(r.amount);
    w.PutWord(r.nonce, 8);
    w.PutWord(r.expiresAt, 8);
  }

  /** The bytes `withdrawal_cert_body_hash` hashes, field by field. */
  method WithdrawalBodyBytes(c: WithdrawalCertificate) returns (body: seq<byte>)
    ensures body == WithdrawalBytes(c)
  {
    var w := new Writer();
    PutSettlement(w, c);
    SettlementShape(c);
    body := w.buf;
  }

  method PutSettlement(w: Writer, c: WithdrawalCertificate)
    modifies w
    ensures w.buf == old(w.buf) + (AsBytes(c.id) + (BE(c.chain, 8) + ((LenBytes(|c.tx|) + c.tx)
                       + (BE(c.asset, 4) + (I128Bytes(c.amount) + PROOF.write(c.proof))))))
  {
    Regroup6(w.buf, AsBytes(c.id), BE(c.chain, 8), LenBytes(|c.tx|) + c.tx, BE(c.asset, 4), I128Bytes(c.amount),
      PROOF.write(c.proof));
    w.PutHash(c.id);
    w.PutWord(c.chain, 8);
    w.PutBlob(c.tx);
    w.PutWord(c.asset, 4);
    w.PutI128(c.amount);
    PutProof(w, c.proof);
  }

  // ---- whole messages ------------------------------------------------------

  /** `DepositCertificate::decode`. */
  method DecodeDepositCertificate(bytes: seq<byte>) returns (x: Result<DepositCertificate, CodecError>)
    requires |bytes| < U64_SIZE / 2
    ensures x == Decode(DEPOSIT_CERTIFICATE, bytes)
  {
    var r := new Reader(bytes);
    var c :- GetDepositCertificate(r);
    var end :- r.Finish();
    return Ok(c);
  }

  /** `WithdrawalRequest::decode`. */
  method DecodeRequest(bytes: seq<byte>) returns (x: Result<WithdrawalRequest, CodecError>)
    requires |bytes| < U64_SIZE / 2
    ensures x == Decode(REQUEST, bytes)
  {
    var r := new Reader(bytes);
    var q :- GetRequest(r);
    var end :- r.Finish();
    return Ok(q);
  }

  /** `WithdrawalCertificate::decode`. */
  method DecodeWithdrawalCertificate(bytes: seq<byte>) returns (x: Result<WithdrawalCertificate, CodecError>)
    requires |bytes| < U64_SIZE / 2
    ensures x == Decode(WITHDRAWAL_CERTIFICATE, bytes)
  {
    var r := new Reader(bytes);
    var c :- GetWithdrawalCertificate(r);
    var end :- r.Finish();
    return Ok(c);
  }

  /** `encode`, then `decode`: a certificate comes back exactly when it is within the decoder's bounds. */
  method CertificateThereAndBack(c: DepositCertificate)
    returns (bytes: seq<byte>, back: Result<DepositCertificate, CodecError>)
    requires |DEPOSIT_CERTIFICATE.write(c)| < U64_SIZE / 2
    ensures bytes == DEPOSIT_CERTIFICATE.write(c)
    ensures back == Ok(c) <==> |c.event.tx| <= MAX_TXID_LEN && QcFits(c.qc)
  {
    var w := new Writer();
    PutDepositCertificate(w, c);
    bytes := w.buf;
    back := DecodeDepositCertificate(bytes);
    DepositCertificateRoundTrip(bytes, c);
  }
}

/** Withdrawal nonce reservation: two maps that must agree, and no withdrawal sent twice. */
module Ledger {
  import opened Bytes
  import opened Hashing
  import opened Custody

  type TxId = seq<byte>
  type Slot = (u32, u64)   // account and nonce

  datatype ReservationState = Reserved | Broadcast(tx: TxId) | Finalized
  datatype Entry = Entry(id: Hash, state: ReservationState)
  datatype Book = Book(byNonce: map<Slot, Entry>, index: map<Hash, Slot>)

  datatype Op =
    | Reserve(req: WithdrawalRequest)
    | Record(id: Hash, tx: TxId)
    | Finalize(id: Hash)
    | Release(id: Hash)

  /** A successful call: a reservation (fresh or a retry), a recorded transaction, or done. */
  datatype Outcome = Held(isNew: bool) | Sent(tx: TxId) | Done

  predicate InBounds(op: Op) { op.Reserve? ==> |op.req.address| < U64_SIZE }

  function SlotOf(req: WithdrawalRequest): Slot { (req.account, req.nonce) }

  /** What each call returns on a given book. */
  function Reply(sha: Sha, b: Book, op: Op): Result<Outcome, AdapterError>
    requires InBounds(op)
  {
    match op
    case Reserve(req) =>
      var slot := SlotOf(req);
      if slot !in b.byNonce then Ok(Held(true))
      else if b.byNonce[slot].id == RequestId(sha, req) then Ok(Held(false))
      else Err(ReplayedNonce)
    case Record(id, tx) =>
      if id !in b.index || b.index[id] !in b.byNonce then Err(UnknownTx)
      else
        (match b.byNonce[b.index[id]].state
         case Reserved => Ok(Sent(tx))
         case Broadcast(existing) => if existing == tx then Ok(Sent(tx)) else Err(IllegalTransition)
         case Finalized => Err(IllegalTransition))
    case Finalize(id) =>
      if id !in b.index || b.index[id] !in b.byNonce then Err(UnknownTx)
      else if b.byNonce[b.index[id]].state.Reserved? then Err(IllegalTransition)
      else Ok(Done)
    case Release(id) =>
      if id !in b.index || b.index[id] !in b.byNonce then Err(UnknownTx)
      else if !b.byNonce[b.index[id]].state.Reserved? then Err(IllegalTransition)
      else Ok(Done)
  }

  /** The book after the call; a refused call changes nothing. */
  function Next(sha: Sha, b: Book, op: Op): Book
    requires InBounds(op)
  {
    if Reply(sha, b, op).Err? then b
    else
      match op
      case Reserve(req) =>
        var slot, id := SlotOf(req), RequestId(sha, req);
        if slot in b.byNonce then b else Book(b.byNonce[slot := Entry(id, Reserved)], b.index[id := slot])
      case Record(id, tx) =>
        var slot := b.index[id];
        b.(byNonce := b.byNonce[slot := b.byNonce[slot].(state := Broadcast(tx))])
      case Finalize(id) =>
        var slot := b.index[id];
        b.(byNonce := b.byNonce[slot := b.byNonce[slot].(state := ReservationState.Finalized)])
      case Release(id) => Book(b.byNonce - {b.index[id]}, b.index - {id})
  }

  /** `WithdrawalLedger`. */
  class WithdrawalLedger {
    const sha: Sha
    var byNonce: map<Slot, Entry>
    var index: map<Hash, Slot>

    function Contents(): Book reads this { Book(byNonce, index) }

    constructor (sha: Sha)
      ensures this.sha == sha && Contents() == Book(map[], map[])
    {
      this.sha := sha;
      byNonce, index := map[], map[];
    }

    method ReserveNonce(req: WithdrawalRequest) returns (r: Result<Outcome, AdapterError>)
      requires InBounds(Reserve(req))
      modifies this
      ensures r == Reply(sha, old(Contents()), Reserve(req))
      ensures Contents() == Next(sha, old(Contents()), Reserve(req))
    {
      var id := RequestId(sha, req);
      var slot := SlotOf(req);
      if slot in byNonce {
        if byNonce[slot].id == id { return Ok(Held(false)); }
        return Err(ReplayedNonce);
      }
      byNonce := byNonce[slot := Entry(id, Reserved)];
      index := index[id := slot];
      return Ok(Held(true));
    }

    method RecordBroadcast(id: Hash, tx: TxId) returns (r: Result<Outcome, AdapterError>)
      modifies this
      ensures r == Reply(sha, old(Contents()), Record(id, tx))
      ensures Contents() == Next(sha, old(Contents()), Record(id, tx))
    {
      if id !in index { return Err(UnknownTx); }
      var slot := index[id];
      if slot !in byNonce { return Err(UnknownTx); }
      match byNonce[slot].state
      case Reserved =>
        byNonce := byNonce[slot := byNonce[slot].(state := Broadcast(tx))];
        return Ok(Sent(tx));
      case Broadcast(existing) =>
        if existing == tx {
          assert byNonce == byNonce[slot := byNonce[slot].(state := Broadcast(tx))];
          return Ok(Sent(existing));
        }
        return Err(IllegalTransition);
      case Finalized => return Err(IllegalTransition);
    }

    method FinalizeWithdrawal(id: Hash) returns (r: Result<Outcome, AdapterError>)
      modifies this
      ensures r == Reply(sha, old(Contents()), Finalize(id))
      ensures Contents() == Next(sha, old(Contents()), Finalize(id))
    {
      if id !in index { return Err(UnknownTx); }
      var slot := index[id];
      if slot !in byNonce { return Err(UnknownTx); }
      match byNonce[slot].state
      case Broadcast(_) =>
        byNonce := byNonce[slot := byNonce[slot].(state := ReservationState.Finalized)];
        return Ok(Done);
      case Finalized =>
        assert byNonce == byNonce[slot := byNonce[slot].(state := ReservationState.Finalized)];
        return Ok(Done);
      case Reserved => return Err(IllegalTransition);
    }

    method ReleaseNonce(id: Hash) returns (r: Result<Outcome, AdapterError>)
      modifies this
      ensures r == Reply(sha, old(Contents()), Release(id))
      ensures Contents() == Next(sha, old(Contents()), Release(id))
    {
      if id !in index { return Err(UnknownTx); }
      var slot := index[id];
      if slot !in byNonce { return Err(UnknownTx); }
      if !byNonce[slot].state.Reserved? { return Err(IllegalTransition); }
      byNonce := byNonce - {slot};
      index := index - {id};
      return Ok(Done);
    }
  }

  // ---- runs ----------------------------------------------------------------

  const EMPTY := Book(map[], map[])

  function After(sha: Sha, ops: seq<Op>): Book
    requires forall i | 0 <= i < |ops| :: InBounds(ops[i])
  {
    if ops == [] then EMPTY else Next(sha, After(sha, ops[..|ops| - 1]), ops[|ops| - 1])
  }

  /** Every transaction ever recorded as broadcast: its slot, withdrawal id and transaction id. */
  function Sends(sha: Sha, ops: seq<Op>): set<(Slot, Hash, TxId)>
    requires forall i | 0 <= i < |ops| :: InBounds(ops[i])
  {
    if ops == [] then {}
    else
      var init, op := ops[..|ops| - 1], ops[|ops| - 1];
      var b := After(sha, init);
      Sends(sha, init) +
      (if op.Record? && Reply(sha, b, op).Ok? then {(b.index[op.id], b.byNonce[b.index[op.id]].id, op.tx)} else {})
  }

  /** Every id of `index` points at a slot held by that id. */
  ghost predicate IndexBacked(b: Book) {
    forall id | id in b.index :: b.index[id] in b.byNonce && b.byNonce[b.index[id]].id == id
  }

  /** The slot is held by the id, past reservation, and by this transaction if still only broadcast. */
  predicate HeldBy(b: Book, slot: Slot, id: Hash, tx: TxId) {
    && slot in b.byNonce && b.byNonce[slot].id == id
    && (b.byNonce[slot].state == Broadcast(tx) || b.byNonce[slot].state == ReservationState.Finalized)
  }

  lemma {:induction false} IndexBackedStep(sha: Sha, b: Book, op: Op)
    requires InBounds(op) && IndexBacked(b)
    ensures IndexBacked(Next(sha, b, op))
  {
    var c := Next(sha, b, op);
    forall id | id in c.index ensures c.index[id] in c.byNonce && c.byNonce[c.index[id]].id == id {
      if id in b.index { assert b.index[id] in b.byNonce; }
    }
  }

  /** Once sent, held for good: no call whatsoever takes a sent slot from its id or changes its transaction. */
  lemma HeldStep(sha: Sha, b: Book, op: Op, slot: Slot, id: Hash, tx: TxId)
    requires InBounds(op) && HeldBy(b, slot, id, tx)
    ensures HeldBy(Next(sha, b, op), slot, id, tx)
  {
  }

  lemma {:induction false} RunIndexBacked(sha: Sha, ops: seq<Op>)
    requires forall i | 0 <= i < |ops| :: InBounds(ops[i])
    ensures IndexBacked(After(sha, ops))
  {
    if ops != [] {
      RunIndexBacked(sha, ops[..|ops| - 1]);
      IndexBackedStep(sha, After(sha, ops[..|ops| - 1]), ops[|ops| - 1]);
    }
  }

  /** Every transaction ever sent still holds its slot, over every interleaving of calls. */
  lemma {:induction false} SentIsHeld(sha: Sha, ops: seq<Op>, slot: Slot, id: Hash, tx: TxId)
    requires forall i | 0 <= i < |ops| :: InBounds(ops[i])
    requires (slot, id, tx) in Sends(sha, ops)
    ensures HeldBy(After(sha, ops), slot, id, tx)
  {
    var init, op := ops[..|ops| - 1], ops[|ops| - 1];
    RunIndexBacked(sha, init);
    if (slot, id, tx) in Sends(sha, init) {
      SentIsHeld(sha, init, slot, id, tx);
      HeldStep(sha, After(sha, init), op, slot, id, tx);
    }
  }

  lemma FreshSend(sha: Sha, b: Book, op: Op, slot: Slot, id: Hash, tx: TxId)
    requires op.Record? && Reply(sha, b, op).Ok? && HeldBy(b, slot, id, tx) && b.index[op.id] == slot
    ensures op.tx == tx && b.byNonce[slot].id == id
  {
  }

  /** No double-send: over every run each (account, nonce) is broadcast under at most one withdrawal id
      and one transaction id.  Nothing is assumed of the hash. */
  lemma {:induction false} NoDoubleSend(
    sha: Sha, ops: seq<Op>, slot: Slot, id: Hash, tx: TxId, id': Hash, tx': TxId)
    requires forall i | 0 <= i < |ops| :: InBounds(ops[i])
    requires (slot, id, tx) in Sends(sha, ops) && (slot, id', tx') in Sends(sha, ops)
    ensures id == id' && tx == tx'
  {
    var init, op := ops[..|ops| - 1], ops[|ops| - 1];
    var b := After(sha, init);
    var first, second := (slot, id, tx) in Sends(sha, init), (slot, id', tx') in Sends(sha, init);
    if first && second {
      NoDoubleSend(sha, init, slot, id, tx, id', tx');
    } else if first {
      SentIsHeld(sha, init, slot, id, tx);
      FreshSend(sha, b, op, slot, id, tx);
    } else if second {
      SentIsHeld(sha, init, slot, id', tx');
      FreshSend(sha, b, op, slot, id', tx');
    }
  }

  /** A sent slot is held by its id in every later state of the run. */
  lemma {:induction false} HeldForEver(sha: Sha, ops: seq<Op>, later: seq<Op>, slot: Slot, id: Hash, tx: TxId)
    requires forall i | 0 <= i < |ops| :: InBounds(ops[i])
    requires forall i | 0 <= i < |later| :: InBounds(later[i])
    requires (slot, id, tx) in Sends(sha, ops)
    ensures HeldBy(After(sha, ops + later), slot, id, tx)
    decreases |later|
  {
    if later == [] {
      assert ops + later == ops;
      SentIsHeld(sha, ops, slot, id, tx);
    } else {
      var init := later[..|later| - 1];
      HeldForEver(sha, ops, init, slot, id, tx);
      assert (ops + later)[..|ops + later| - 1] == ops + init;
      HeldStep(sha, After(sha, ops + init), later[|later| - 1], slot, id, tx);
    }
  }

  // ---- retries and races ---------------------------------------------------

  /** A slot is newly held by at most one request: the same request retried gets its own reservation back,
      any request with another id is refused, and neither changes the book. */
  lemma ReserveOnce(sha: Sha, b: Book, req: WithdrawalRequest, other: WithdrawalRequest)
    requires InBounds(Reserve(req)) && InBounds(Reserve(other)) && SlotOf(other) == SlotOf(req)
    requires Reply(sha, b, Reserve(req)).Ok?
    ensures var b' := Next(sha, b, Reserve(req));
            && Reply(sha, b', Reserve(other)) == (if RequestId(sha, other) == RequestId(sha, req) then Ok(Held(false))
                                                  else Err(ReplayedNonce))
            && Next(sha, b', Reserve(other)) == b'
  {
  }

  /** A recorded transaction is returned to a retry; any other transaction is refused; neither changes the book. */
  lemma RecordOnce(sha: Sha, b: Book, id: Hash, tx: TxId, other: TxId)
    requires Reply(sha, b, Record(id, tx)).Ok?
    ensures var b' := Next(sha, b, Record(id, tx));
            && Reply(sha, b', Record(id, other)) == (if other == tx then Ok(Sent(tx)) else Err(IllegalTransition))
            && Next(sha, b', Record(id, other)) == b'
  {
    var b' := Next(sha, b, Record(id, tx));
    assert b'.byNonce == b'.byNonce[b'.index[id] := b'.byNonce[b'.index[id]].(state := Broadcast(tx))];
  }

  // ---- the two maps as mutual inverses -------------------------------------

  ghost predicate Inverse(b: Book) {
    && IndexBacked(b)
    && forall slot | slot in b.byNonce :: b.byNonce[slot].id in b.index && b.index[b.byNonce[slot].id] == slot
  }

  /** A fresh reservation whose id already holds another slot: possible only on a hash collision. */
  predicate Clash(sha: Sha, b: Book, op: Op)
    requires InBounds(op)
  {
    op.Reserve? && SlotOf(op.req) !in b.byNonce && RequestId(sha, op.req) in b.index
  }

  /** The maps stay mutual inverses across a call if and only if it is not a clash. */
  lemma {:induction false} InverseStep(sha: Sha, b: Book, op: Op)
    requires InBounds(op) && Inverse(b)
    ensures Inverse(Next(sha, b, op)) <==> !Clash(sha, b, op)
  {
    IndexBackedStep(sha, b, op);
    var c := Next(sha, b, op);
    if Clash(sha, b, op) {
      var old_ := b.index[RequestId(sha, op.req)];
      assert old_ in c.byNonce && c.byNonce[old_].id == RequestId(sha, op.req);
      assert c.index[RequestId(sha, op.req)] == SlotOf(op.req) != old_;
    } else {
      forall slot | slot in c.byNonce ensures c.byNonce[slot].id in c.index && c.index[c.byNonce[slot].id] == slot {
        if slot in b.byNonce { assert b.index[b.byNonce[slot].id] == slot; }
      }
    }
  }

  /** Every reservation of the run hashes a preimage among which the hash has no collision. */
  ghost predicate CollisionFreeRun(sha: Sha, preimages: iset<seq<byte>>, ops: seq<Op>) {
    && CollisionFree(sha, preimages)
    && forall i | 0 <= i < |ops| :: InBounds(ops[i]) && (ops[i].Reserve? ==> RequestPreimage(ops[i].req) in preimages)
  }

  /** Every id of the index is the id of a request of the run for the slot it points at. */
  ghost predicate Sourced(sha: Sha, preimages: iset<seq<byte>>, b: Book) {
    forall id | id in b.index :: SourceOf(sha, preimages, id, b.index[id])
  }

  ghost predicate SourceOf(sha: Sha, preimages: iset<seq<byte>>, id: Hash, slot: Slot) {
    exists req: WithdrawalRequest ::
      && |req.address| < U64_SIZE && RequestPreimage(req) in preimages
      && RequestId(sha, req) == id && SlotOf(req) == slot
  }

  lemma {:induction false} NeverClash(sha: Sha, preimages: iset<seq<byte>>, b: Book, op: Op)
    requires InBounds(op) && CollisionFree(sha, preimages) && Inverse(b) && Sourced(sha, preimages, b)
    requires op.Reserve? ==> RequestPreimage(op.req) in preimages
    ensures !Clash(sha, b, op)
  {
    if Clash(sha, b, op) {
      var id := RequestId(sha, op.req);
      assert SourceOf(sha, preimages, id, b.index[id]);
      var req: WithdrawalRequest :| |req.address| < U64_SIZE && RequestPreimage(req) in preimages
        && RequestId(sha, req) == id && SlotOf(req) == b.index[id];
      RequestIdBinds(sha, preimages, req, op.req);
    }
  }

  lemma SourceOfRequest(sha: Sha, preimages: iset<seq<byte>>, req: WithdrawalRequest)
    requires |req.address| < U64_SIZE && RequestPreimage(req) in preimages
    ensures SourceOf(sha, preimages, RequestId(sha, req), SlotOf(req))
  {
  }

  /** An index entry after a call was there before, or is the one a reservation wrote. */
  lemma IndexOrigin(sha: Sha, b: Book, op: Op, id: Hash)
    requires InBounds(op) && id in Next(sha, b, op).index
    ensures (id in b.index && Next(sha, b, op).index[id] == b.index[id])
         || (op.Reserve? && id == RequestId(sha, op.req) && Next(sha, b, op).index[id] == SlotOf(op.req))
  {
  }

  lemma {:induction false} SourcedStep(sha: Sha, preimages: iset<seq<byte>>, b: Book, op: Op)
    requires InBounds(op) && Sourced(sha, preimages, b)
    requires op.Reserve? ==> RequestPreimage(op.req) in preimages
    ensures Sourced(sha, preimages, Next(sha, b, op))
  {
    var index := Next(sha, b, op).index;
    forall id | id in index ensures SourceOf(sha, preimages, id, index[id]) {
      IndexOrigin(sha, b, op, id);
      if op.Reserve? { SourceOfRequest(sha, preimages, op.req); }
    }
  }

  /** With collision-free ids the two maps are mutual inverses in every reachable state. */
  lemma {:induction false} RunInverse(sha: Sha, preimages: iset<seq<byte>>, ops: seq<Op>)
    requires CollisionFreeRun(sha, preimages, ops)
    ensures Inverse(After(sha, ops)) && Sourced(sha, preimages, After(sha, ops))
  {
    if ops != [] {
      var init, op := ops[..|ops| - 1], ops[|ops| - 1];
      RunInverse(sha, preimages, init);
      NeverClash(sha, preimages, After(sha, init), op);
      InverseStep(sha, After(sha, init), op);
      SourcedStep(sha, preimages, After(sha, init), op);
    }
  }

  /** Two requests for different slots with one id break the correspondence as soon as both reserve. */
  lemma {:induction false} CollidingIdsBreakInverse(sha: Sha, r: WithdrawalRequest, q: WithdrawalRequest)
    requires |r.address| < U64_SIZE && |q.address| < U64_SIZE
    requires RequestId(sha, r) == RequestId(sha, q) && SlotOf(r) != SlotOf(q)
    ensures !Inverse(After(sha, [Reserve(r), Reserve(q)]))
  {
    var ops := [Reserve(r), Reserve(q)];
    assert ops[..1] == [Reserve(r)] && [Reserve(r)][..0] == [];
    assert After(sha, []) == EMPTY;
    var b := Next(sha, EMPTY, Reserve(r));
    assert After(sha, [Reserve(r)]) == b;
    InverseStep(sha, EMPTY, Reserve(r));
    InverseStep(sha, b, Reserve(q));
  }

  /** For instance, two nonces of one account under a constant hash. */
  lemma {:induction false} ConstantHashBreaksInverse()
    ensures var req := WithdrawalRequest(5, 1, [], 7, 100, 1, 1000, []);
            !Inverse(After((_: seq<byte>) => ZERO, [Reserve(req), Reserve(req.(nonce := 2))]))
  {
    var req := WithdrawalRequest(5, 1, [], 7, 100, 1, 1000, []);
    CollidingIdsBreakInverse((_: seq<byte>) => ZERO, req, req.(nonce := 2));
  }
}

/** The packed-order client: a sequence state machine that poisons itself on any ambiguity, driven by
    whatever receipts the peer chooses to send. */
module PackedClient {
  import opened Bytes
  import opened PackedOrder

  const MAX_PENDING_FINALITY := 65_536
  const MIN_RECORDS := 32
  const MAX_RECORDS := 128

  datatype Lease = Lease(
    session: u32, account: u32, firstBatch: u64, firstCommand: u64, batchStride: u64, commandStride: u64)
  datatype Boundary = UntilExecuted | UntilFinalized
  datatype Stage = Admitted | Executed | Finalized | Rejected(code: nat)
  datatype Receipt = Receipt(batch: u64, first: u64, count: nat, stage: Stage)

  /** One read from the peer: nothing in time, a broken stream, a frame that does not parse as a receipt
      frame, or a frame whose receipt body may itself be malformed. */
  datatype Incoming = Timeout | Broken | BadFrame | Framed(sequence: u64, receipt: Option<Receipt>)

  datatype ClientError =
    | ConnectionPoisoned | FinalityCapacity | BatchSize | RecordBinding | InvalidLease | SequenceExhausted
    | BadRecord | SigningFailed | Io | ReceiptTimeout | ReceiptFrame | ReceiptSequence(expected: u64, actual: u64)
    | BadReceipt | UnknownReceipt(batch: u64, first: u64) | ReceiptCount(sent: nat, receipted: nat)
    | RejectedBatch(code: nat) | MissingExecution | DuplicateFinality

  datatype Outcome = Outcome(
    batch: u64, first: u64, admitted: Option<Receipt>, executed: Receipt, finalized: Option<Receipt>)

  type Key = (u64, u64)   // batch sequence and first command sequence

  datatype Client = Client(
    nextTransport: u64, nextReceipt: u64, nextBatch: u64, nextCommand: u64, retired: set<Key>, usable: bool)

  /** A signed batch handed to the socket. */
  datatype Sent = Sent(batch: u64, first: u64, count: nat, transport: u64)

  /** The client with everything it ever signed and the numbers of the receipt frames it accepted. */
  datatype World = World(client: Client, sent: seq<Sent>, accepted: seq<u64>)

  /** One call of `send_batch`, with what signing, the socket and the peer do during it. */
  datatype Call = Call(records: seq<Order>, boundary: Boundary, signs: bool, writes: bool, incoming: seq<Incoming>)

  /** `validate_lease`, without the address-family check. */
  predicate ValidLease(lease: Lease) { lease.batchStride > 0 }

  function Fresh(lease: Lease): World {
    World(Client(0, 0, lease.firstBatch, lease.firstCommand, {}, true), [], [])
  }

  // ---- what one call does --------------------------------------------------

  predicate Bound(lease: Lease, records: seq<Order>) {
    forall i | 0 <= i < |records| ::
      records[i].common.session == lease.session && records[i].common.account == lease.account
  }

  function Advance(lease: Lease, count: nat): nat { if lease.commandStride == 0 then count else lease.commandStride }

  /** Why a call is refused before anything is written, if it is. */
  function Refusal(lease: Lease, c: Client, call: Call): Option<ClientError> {
    var n := |call.records|;
    if !c.usable then Some(ConnectionPoisoned)
    else if call.boundary.UntilExecuted? && |c.retired| >= MAX_PENDING_FINALITY then Some(FinalityCapacity)
    else if !(MIN_RECORDS <= n <= MAX_RECORDS) then Some(BatchSize)
    else if !Bound(lease, call.records) then Some(RecordBinding)
    else if Advance(lease, n) < n then Some(InvalidLease)
    else if c.nextBatch + lease.batchStride >= U64_SIZE || c.nextCommand + Advance(lease, n) >= U64_SIZE
            || c.nextTransport + 1 >= U64_SIZE then Some(SequenceExhausted)
    else if !AllValid(call.records) then Some(BadRecord)
    else if !call.signs then Some(SigningFailed)
    else None
  }

  /** The batch is signed and handed to the socket: from here on an error is ambiguous. */
  function Written(lease: Lease, w: World, call: Call): World
    requires Refusal(lease, w.client, call).None?
  {
    var c, n := w.client, |call.records|;
    w.(sent := w.sent + [Sent(c.nextBatch, c.nextCommand, n, c.nextTransport)],
       client := if !call.writes then c.(usable := false)
                 else c.(usable := false, nextTransport := c.nextTransport + 1,
                         nextBatch := c.nextBatch + lease.batchStride,
                         nextCommand := c.nextCommand + Advance(lease, n)))
  }

  /** `read_receipt`: a frame counts once it carries the next number, even if its body is bad. */
  function Read(w: World, m: Incoming): (World, Result<Receipt, ClientError>) {
    match m
    case Timeout => (w, Err(ReceiptTimeout))
    case Broken => (w, Err(Io))
    case BadFrame => (w, Err(ReceiptFrame))
    case Framed(sequence, receipt) =>
      if sequence != w.client.nextReceipt then (w, Err(ReceiptSequence(w.client.nextReceipt, sequence)))
      else if sequence + 1 >= U64_SIZE then (w, Err(SequenceExhausted))
      else
        var w' := w.(client := w.client.(nextReceipt := sequence + 1), accepted := w.accepted + [sequence]);
        (w', if receipt.Some? then Ok(receipt.value) else Err(BadReceipt))
  }

  datatype Wait = Wait(key: Key, count: nat, boundary: Boundary, admitted: Option<Receipt>, executed: Option<Receipt>)

  datatype Verdict = More(world: World, wait: Wait) | Stop(world: World, result: Result<Outcome, ClientError>)

  /** What one receipt does to a waiting call. */
  function OnReceipt(w: World, p: Wait, r: Receipt): Verdict {
    var c := w.client;
    var key := (r.batch, r.first);
    if key != p.key then
      if r.stage.Finalized? && key in c.retired then More(w.(client := c.(retired := c.retired - {key})), p)
      else Stop(w, Err(UnknownReceipt(r.batch, r.first)))
    else if r.count != p.count then Stop(w, Err(ReceiptCount(p.count, r.count)))
    else
      match r.stage
      case Rejected(code) => Stop(w, Err(RejectedBatch(code)))
      case Admitted => More(w, p.(admitted := Some(r)))
      case Executed =>
        if p.boundary.UntilFinalized? then More(w, p.(executed := Some(r)))
        else if |c.retired| >= MAX_PENDING_FINALITY then Stop(w, Err(FinalityCapacity))
        else if p.key in c.retired then Stop(w, Err(DuplicateFinality))
        else Stop(w.(client := c.(retired := c.retired + {p.key}, usable := true)),
                  Ok(Outcome(p.key.0, p.key.1, p.admitted, r, None)))
      case Finalized =>
        if p.executed.None? then Stop(w, Err(MissingExecution))
        else Stop(w.(client := c.(usable := true)),
                  Ok(Outcome(p.key.0, p.key.1, p.admitted, p.executed.value, Some(r))))
  }

  function OnIncoming(w: World, p: Wait, m: Incoming): Verdict {
    var (w', r) := Read(w, m);
    if r.Err? then Stop(w', Err(r.error)) else OnReceipt(w', p, r.value)
  }

  /** The receipt loop; a peer that sends nothing more lets the call time out. */
  function Await(w: World, p: Wait, incoming: seq<Incoming>): (World, Result<Outcome, ClientError>)
    decreases |incoming|
  {
    if incoming == [] then (w, Err(ReceiptTimeout))
    else
      match OnIncoming(w, p, incoming[0])
      case Stop(w', r) => (w', r)
      case More(w', p') => Await(w', p', incoming[1..])
  }

  function Start(w: World, call: Call): Wait {
    Wait((w.client.nextBatch, w.client.nextCommand), |call.records|, call.boundary, None, None)
  }

  /** `send_batch`. */
  function Send(lease: Lease, w: World, call: Call): (World, Result<Outcome, ClientError>) {
    var refusal := Refusal(lease, w.client, call);
    if refusal.Some? then (w, Err(refusal.value))
    else if !call.writes then (Written(lease, w, call), Err(Io))
    else Await(Written(lease, w, call), Start(w, call), call.incoming)
  }

  // ---- the mutable client --------------------------------------------------

  class PackedClient {
    const lease: Lease
    var nextTransport: u64
    var nextReceipt: u64
    var nextBatch: u64
    var nextCommand: u64
    var retired: set<Key>
    var usable: bool
    ghost var sent: seq<Sent>
    ghost var accepted: seq<u64>

    ghost function Now(): World
      reads this
    {
      World(Client(nextTransport, nextReceipt, nextBatch, nextCommand, retired, usable), sent, accepted)
    }

    constructor (lease: Lease)
      ensures this.lease == lease && Now() == Fresh(lease)
    {
      this.lease := lease;
      nextTransport, nextReceipt, nextBatch, nextCommand := 0, 0, lease.firstBatch, lease.firstCommand;
      retired, usable, sent, accepted := {}, true, [], [];
    }

    method ReadReceipt(m: Incoming) returns (r: Result<Receipt, ClientError>)
      modifies this
      ensures (Now(), r) == Read(old(Now()), m)
    {
      match m
      case Timeout => return Err(ReceiptTimeout);
      case Broken => return Err(Io);
      case BadFrame => return Err(ReceiptFrame);
      case Framed(sequence, receipt) =>
        if sequence != nextReceipt { return Err(ReceiptSequence(nextReceipt, sequence)); }
        if sequence + 1 >= U64_SIZE { return Err(SequenceExhausted); }
        nextReceipt := sequence + 1;
        accepted := accepted + [sequence];
        if receipt.None? { return Err(BadReceipt); }
        return Ok(receipt.value);
    }

    /** The checks of `send_batch` that come before the first write, in order. */
    method Check(call: Call) returns (refusal: Option<ClientError>)
      ensures refusal == Refusal(lease, Now().client, call)
    {
      var n := |call.records|;
      if !usable { return Some(ConnectionPoisoned); }
      if call.boundary.UntilExecuted? && |retired| >= MAX_PENDING_FINALITY { return Some(FinalityCapacity); }
      if !(MIN_RECORDS <= n <= MAX_RECORDS) { return Some(BatchSize); }
      for k := 0 to n
        invariant Bound(lease, call.records[..k])
      {
        var c := call.records[k].common;
        assert call.records[..k + 1][k] == call.records[k];
        if c.session != lease.session || c.account != lease.account { return Some(RecordBinding); }
      }
      assert call.records[..n] == call.records;
      if Advance(lease, n) < n { return Some(InvalidLease); }
      if nextBatch + lease.batchStride >= U64_SIZE { return Some(SequenceExhausted); }
      if nextCommand + Advance(lease, n) >= U64_SIZE { return Some(SequenceExhausted); }
      if nextTransport + 1 >= U64_SIZE { return Some(SequenceExhausted); }
      if !AllValid(call.records) { return Some(BadRecord); }
      if !call.signs { return Some(SigningFailed); }
      return None;
    }

    method SendBatch(call: Call) returns (r: Result<Outcome, ClientError>)
      modifies this
      ensures (Now(), r) == Send(lease, old(Now()), call)
    {
      var refusal := Check(call);
      if refusal.Some? { return Err(refusal.value); }
      var count, key := |call.records|, (nextBatch, nextCommand);
      usable := false;
      sent := sent + [Sent(nextBatch, nextCommand, count, nextTransport)];
      if !call.writes { return Err(Io); }
      nextTransport := nextTransport + 1;
      nextBatch := nextBatch + lease.batchStride;
      nextCommand := nextCommand + Advance(lease, count);
      assert Now() == Written(lease, old(Now()), call);
      r := Receive(Wait(key, count, call.boundary, None, None), call.incoming);
    }

    /** The receipt loop of `send_batch`. */
    method Receive(start: Wait, incoming: seq<Incoming>) returns (r: Result<Outcome, ClientError>)
      modifies this
      ensures (Now(), r) == Await(old(Now()), start, incoming)
    {
      var p, i := start, 0;
      assert incoming[0..] == incoming;
      while i < |incoming|
        invariant 0 <= i <= |incoming|
        invariant Await(Now(), p, incoming[i..]) == Await(old(Now()), start, incoming)
      {
        ghost var before := Now();
        assert incoming[i..][0] == incoming[i] && incoming[i..][1..] == incoming[i + 1..];
        var read := ReadReceipt(incoming[i]);
        if read.Err? { return Err(read.error); }
        var done, result := false, Err(ReceiptTimeout);
        done, result, p := Handle(p, read.value);
        if done { return result; }
        i := i + 1;
      }
      return Err(ReceiptTimeout);
    }

    method Handle(p: Wait, receipt: Receipt) returns (done: bool, r: Result<Outcome, ClientError>, next: Wait)
      modifies this
      ensures match OnReceipt(old(Now()), p, receipt)
              case Stop(w, result) => done && Now() == w && r == result
              case More(w, wait) => !done && Now() == w && next == wait
    {
      next, r := p, Err(ReceiptTimeout);
      var key := (receipt.batch, receipt.first);
      if key != p.key {
        if receipt.stage.Finalized? && key in retired {
          retired := retired - {key};
          return false, r, p;
        }
        return true, Err(UnknownReceipt(receipt.batch, receipt.first)), p;
      }
      if receipt.count != p.count { return true, Err(ReceiptCount(p.count, receipt.count)), p; }
      match receipt.stage
      case Rejected(code) => return true, Err(RejectedBatch(code)), p;
      case Admitted => return false, r, p.(admitted := Some(receipt));
      case Executed =>
        if p.boundary.UntilFinalized? { return false, r, p.(executed := Some(receipt)); }
        if |retired| >= MAX_PENDING_FINALITY { return true, Err(FinalityCapacity), p; }
        if p.key in retired { return true, Err(DuplicateFinality), p; }
        retired := retired + {p.key};
        usable := true;
        return true, Ok(Outcome(p.key.0, p.key.1, p.admitted, receipt, None)), p;
      case Finalized =>
        if p.executed.None? { return true, Err(MissingExecution), p; }
        usable := true;
        return true, Ok(Outcome(p.key.0, p.key.1, p.admitted, p.executed.value, Some(receipt))), p;
    }
  }

  // ---- runs ----------------------------------------------------------------

  function After(lease: Lease, calls: seq<Call>): World {
    if calls == [] then Fresh(lease) else Send(lease, After(lease, calls[..|calls| - 1]), calls[|calls| - 1]).0
  }

  /** Signed command ranges and batch numbers go up without overlap. */
  ghost predicate Ascending(sent: seq<Sent>) {
    forall i, j | 0 <= i < j < |sent| :: Before(sent[i], sent[j])
  }

  predicate Before(a: Sent, b: Sent) { a.batch < b.batch && a.first + a.count <= b.first }

  /** Everything signed lies below the next numbers to use. */
  ghost predicate Behind(w: World) {
    forall i | 0 <= i < |w.sent| ::
      w.sent[i].batch < w.client.nextBatch && w.sent[i].first + w.sent[i].count <= w.client.nextCommand
  }

  ghost predicate Ahead(w: World) { Behind(w) && w.client.nextTransport == |w.sent| }

  /** Receipt frames accepted and batches sent are numbered 0, 1, 2, ... on their own streams. */
  ghost predicate Numbered(w: World) {
    && |w.accepted| == w.client.nextReceipt && (forall i | 0 <= i < |w.accepted| :: w.accepted[i] == i)
    && forall i | 0 <= i < |w.sent| :: w.sent[i].transport == i
  }

  ghost predicate RetiredBelow(w: World, batch: nat) {
    forall k: Key | k in w.client.retired :: k.0 < batch
  }

  ghost predicate Inv(w: World) {
    && Ascending(w.sent) && Numbered(w)
    && |w.client.retired| <= MAX_PENDING_FINALITY && RetiredBelow(w, w.client.nextBatch)
    && (w.client.usable ==> Ahead(w))
  }

  /** What holds while a call waits for receipts. */
  ghost predicate Waiting(w: World, p: Wait) {
    && !w.client.usable && Ascending(w.sent) && Numbered(w) && Ahead(w)
    && p.key.0 < w.client.nextBatch && RetiredBelow(w, p.key.0)
    && |w.client.retired| <= MAX_PENDING_FINALITY
    && (p.boundary.UntilExecuted? ==> |w.client.retired| < MAX_PENDING_FINALITY)
  }

  lemma WrittenWaits(lease: Lease, w: World, call: Call)
    requires ValidLease(lease) && Inv(w) && Refusal(lease, w.client, call).None?
    ensures Ascending(Written(lease, w, call).sent) && Numbered(Written(lease, w, call))
    ensures call.writes ==> Waiting(Written(lease, w, call), Start(w, call))
  {
  }

  lemma ReadKeeps(w: World, p: Wait, m: Incoming)
    requires Waiting(w, p)
    ensures Waiting(Read(w, m).0, p) && Read(w, m).0.sent == w.sent
  {
  }

  lemma {:induction false} CardinalityOfLess(s: set<Key>, k: Key)
    ensures |s - {k}| <= |s|
  {
    if k in s { assert s == (s - {k}) + {k}; } else { assert s - {k} == s; }
  }

  /** What a receipt leaves behind: a waiting call, or an end that is usable exactly on success, keeps
      every bound, and is neither a duplicate nor a full table. */
  ghost predicate Kept(w: World, v: Verdict) {
    match v
    case More(w', p') => Waiting(w', p') && w'.sent == w.sent
    case Stop(w', result) => Ended(w, w', result)
  }

  ghost predicate Ended(w: World, w': World, result: Result<Outcome, ClientError>) {
    && Inv(w') && w'.sent == w.sent && w'.client.usable == result.Ok?
    && result != Err(DuplicateFinality) && result != Err(FinalityCapacity)
  }

  lemma {:induction false} OtherReceiptKeeps(w: World, p: Wait, r: Receipt)
    requires Waiting(w, p) && (r.batch, r.first) != p.key
    ensures Kept(w, OnReceipt(w, p, r))
  {
    CardinalityOfLess(w.client.retired, (r.batch, r.first));
  }

  lemma OwnReceiptKeeps(w: World, p: Wait, r: Receipt)
    requires Waiting(w, p) && (r.batch, r.first) == p.key
    ensures Kept(w, OnReceipt(w, p, r))
  {
  }

  lemma {:induction false} AwaitKeeps(w: World, p: Wait, incoming: seq<Incoming>)
    requires Waiting(w, p)
    ensures Ended(w, Await(w, p, incoming).0, Await(w, p, incoming).1)
    decreases |incoming|
  {
    if incoming != [] {
      ReadKeeps(w, p, incoming[0]);
      var (w', r) := Read(w, incoming[0]);
      if r.Ok? {
        if (r.value.batch, r.value.first) == p.key { OwnReceiptKeeps(w', p, r.value); }
        else { OtherReceiptKeeps(w', p, r.value); }
        match OnReceipt(w', p, r.value)
        case Stop(_, _) =>
        case More(w'', p'') => AwaitKeeps(w'', p'', incoming[1..]);
      }
    }
  }

  /** One call keeps the invariant; a failure after a write poisons the client; the duplicate error is
      unreachable and the capacity error comes only before anything is written. */
  lemma {:induction false} SendKeeps(lease: Lease, w: World, call: Call)
    requires ValidLease(lease) && Inv(w)
    ensures var (w', result) := Send(lease, w, call);
            && Inv(w') && w.sent <= w'.sent
            && (result.Err? && w'.sent != w.sent ==> !w'.client.usable)
            && result != Err(DuplicateFinality)
            && (result == Err(FinalityCapacity) ==> w' == w)
  {
    if Refusal(lease, w.client, call).None? {
      WrittenWaits(lease, w, call);
      if call.writes { AwaitKeeps(Written(lease, w, call), Start(w, call), call.incoming); }
    }
  }

  lemma {:induction false} RunInv(lease: Lease, calls: seq<Call>)
    requires ValidLease(lease)
    ensures Inv(After(lease, calls))
  {
    if calls != [] {
      RunInv(lease, calls[..|calls| - 1]);
      SendKeeps(lease, After(lease, calls[..|calls| - 1]), calls[|calls| - 1]);
    }
  }

  /** Over every run against arbitrary receipts: signed command ranges are disjoint and increasing,
      frames sent and receipt frames accepted are numbered 0, 1, 2, ..., and the late-finality set stays
      within bound. */
  lemma {:induction false} RunSafety(lease: Lease, calls: seq<Call>)
    requires ValidLease(lease)
    ensures var w := After(lease, calls);
            && (forall i, j | 0 <= i < j < |w.sent| ::
                  w.sent[i].batch < w.sent[j].batch && w.sent[i].first + w.sent[i].count <= w.sent[j].first)
            && (forall i | 0 <= i < |w.sent| :: w.sent[i].transport == i)
            && (forall i | 0 <= i < |w.accepted| :: w.accepted[i] == i)
            && |w.client.retired| <= MAX_PENDING_FINALITY
  {
    RunInv(lease, calls);
    var w := After(lease, calls);
    assert forall i, j | 0 <= i < j < |w.sent| :: Before(w.sent[i], w.sent[j]);
  }

  lemma {:induction false} PoisonedForGood(lease: Lease, calls: seq<Call>, k: nat)
    requires k <= |calls| && !After(lease, calls[..k]).client.usable
    ensures After(lease, calls) == After(lease, calls[..k])
    decreases |calls|
  {
    if k == |calls| {
      assert calls[..k] == calls;
    } else {
      var init := calls[..|calls| - 1];
      assert init[..k] == calls[..k];
      PoisonedForGood(lease, init, k);
    }
  }

  /** If call k wrote a batch and failed, nothing is ever signed or written again on this client. */
  lemma {:induction false} NothingAfterAmbiguity(lease: Lease, calls: seq<Call>, k: nat)
    requires ValidLease(lease) && k < |calls|
    requires var (w', result) := Send(lease, After(lease, calls[..k]), calls[k]);
             result.Err? && w'.sent != After(lease, calls[..k]).sent
    ensures After(lease, calls).sent == After(lease, calls[..k + 1]).sent
    ensures |After(lease, calls).sent| == |After(lease, calls[..k]).sent| + 1
  {
    var w := After(lease, calls[..k]);
    RunInv(lease, calls[..k]);
    SendKeeps(lease, w, calls[k]);
    assert calls[..k + 1][..k] == calls[..k];
    PoisonedForGood(lease, calls, k + 1);
    if calls[k].writes {
      WrittenWaits(lease, w, calls[k]);
      AwaitKeeps(Written(lease, w, calls[k]), Start(w, calls[k]), calls[k].incoming);
    }
  }

  /** No call of any run reports a duplicate key, and none reports a full table after writing. */
  lemma {:induction false} UnreachableErrors(lease: Lease, calls: seq<Call>, k: nat)
    requires ValidLease(lease) && k < |calls|
    ensures var w := After(lease, calls[..k]);
            var (w', result) := Send(lease, w, calls[k]);
            result != Err(DuplicateFinality) && (result == Err(FinalityCapacity) ==> w' == w)
  {
    RunInv(lease, calls[..k]);
    SendKeeps(lease, After(lease, calls[..k]), calls[k]);
  }

  // ---- what a success means ------------------------------------------------

  predicate Speaks(r: Receipt, key: Key, count: nat) { (r.batch, r.first) == key && r.count == count }

  /** The receipt came in on some frame. */
  ghost predicate Received(incoming: seq<Incoming>, r: Receipt) {
    exists i | 0 <= i < |incoming| :: incoming[i].Framed? && incoming[i].receipt == Some(r)
  }

  /** A receipt of this stage for this batch and record count, received during the call. */
  ghost predicate Backed(incoming: seq<Incoming>, p: Wait, r: Receipt, stage: Stage) {
    Speaks(r, p.key, p.count) && r.stage == stage && Received(incoming, r)
  }

  /** What a waiting call has collected came in before. */
  ghost predicate Collected(past: seq<Incoming>, p: Wait) {
    && (p.admitted.Some? ==> Backed(past, p, p.admitted.value, Admitted))
    && (p.executed.Some? ==> Backed(past, p, p.executed.value, Executed))
    && (p.boundary.UntilExecuted? ==> p.executed.None?)
  }

  ghost predicate Correlated(incoming: seq<Incoming>, p: Wait, o: Outcome) {
    && (o.batch, o.first) == p.key
    && (o.admitted.Some? ==> Backed(incoming, p, o.admitted.value, Admitted))
    && Backed(incoming, p, o.executed, Executed)
    && o.finalized.Some? == p.boundary.UntilFinalized?
    && (o.finalized.Some? ==> Backed(incoming, p, o.finalized.value, Finalized))
  }

  lemma {:induction false} ReceivedOn(a: seq<Incoming>, b: seq<Incoming>, r: Receipt)
    requires Received(a, r)
    ensures Received(a + b, r)
  {
    var i :| 0 <= i < |a| && a[i].Framed? && a[i].receipt == Some(r);
    assert (a + b)[i] == a[i];
  }

  /** One more frame leaves a waiting call with received receipts, or ends it with received ones. */
  lemma {:induction false} IncomingCollected(past: seq<Incoming>, w: World, p: Wait, m: Incoming)
    requires Collected(past, p)
    ensures match OnIncoming(w, p, m)
            case Stop(_, r) => r.Ok? ==> Correlated(past + [m], p, r.value)
            case More(_, p') => Collected(past + [m], p') && p' == p.(admitted := p'.admitted, executed := p'.executed)
  {
    assert (past + [m])[|past|] == m;
    if p.admitted.Some? { ReceivedOn(past, [m], p.admitted.value); }
    if p.executed.Some? { ReceivedOn(past, [m], p.executed.value); }
  }

  lemma {:induction false} AwaitCorrelated(past: seq<Incoming>, w: World, p: Wait, incoming: seq<Incoming>)
    requires Collected(past, p) && Await(w, p, incoming).1.Ok?
    ensures Correlated(past + incoming, p, Await(w, p, incoming).1.value)
    decreases |incoming|
  {
    var m, rest := incoming[0], incoming[1..];
    assert past + incoming == (past + [m]) + rest;
    IncomingCollected(past, w, p, m);
    match OnIncoming(w, p, m)
    case Stop(_, r) => CorrelatedOn(past + [m], rest, p, r.value);
    case More(w', p') => AwaitCorrelated(past + [m], w', p', rest);
  }

  lemma {:induction false} CorrelatedOn(a: seq<Incoming>, b: seq<Incoming>, p: Wait, o: Outcome)
    requires Correlated(a, p, o)
    ensures Correlated(a + b, p, o)
  {
    if o.admitted.Some? { ReceivedOn(a, b, o.admitted.value); }
    ReceivedOn(a, b, o.executed);
    if o.finalized.Some? { ReceivedOn(a, b, o.finalized.value); }
  }

  /** Over every run, a call that succeeds signed exactly one batch, and the outcome's receipts came in
      during that call for that batch and its record count: an execution receipt always, a finality receipt
      exactly when the caller asked to wait for it. */
  lemma {:induction false} SuccessIsCorrelated(lease: Lease, calls: seq<Call>, k: nat)
    requires ValidLease(lease) && k < |calls| && Send(lease, After(lease, calls[..k]), calls[k]).1.Ok?
    ensures var w := After(lease, calls[..k]);
            var (w', result) := Send(lease, w, calls[k]);
            var o := result.value;
            && w'.sent == w.sent + [Sent(o.batch, o.first, |calls[k].records|, w.client.nextTransport)]
            && Correlated(calls[k].incoming, Start(w, calls[k]), o)
            && w'.client.usable
  {
    var w, call := After(lease, calls[..k]), calls[k];
    RunInv(lease, calls[..k]);
    WrittenWaits(lease, w, call);
    AwaitKeeps(Written(lease, w, call), Start(w, call), call.incoming);
    AwaitCorrelated([], Written(lease, w, call), Start(w, call), call.incoming);
    assert [] + call.incoming == call.incoming;
  }
}

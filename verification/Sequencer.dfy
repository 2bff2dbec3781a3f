/** Gap-free command sequencing: a pruned log that behaves as the unpruned history does. */
module Sequencer {
  import opened Bytes
  import opened Hashing
  import opened Merkle

  datatype Status = Accepted | Executed | Certified | Finalized

  function Rank(s: Status): nat {
    match s case Accepted => 0 case Executed => 1 case Certified => 2 case Finalized => 3
  }

  datatype Record = Record(sequence: u64, commandHash: Hash, status: Status)

  datatype SequencerError =
    | Exhausted | Gap(expected: u64, got: u64) | UnknownSequence(sequence: u64) | PrunedThrough(through: u64)
    | InvalidTransition(sequence: u64, from: Status, to: Status) | RangeOutOfOrder(first: u64, last: u64)

  /** The retained window: record i carries sequence base + i. */
  datatype Log = Log(base: u64, records: seq<Record>)

  // ---- what each call does to a log ----------------------------------------

  function NextSequence(s: Log): Result<u64, SequencerError> {
    if s.base + |s.records| < U64_SIZE then Ok(s.base + |s.records|) else Err(Exhausted)
  }

  function IndexOf(s: Log, sequence: u64): (r: Result<nat, SequencerError>)
    ensures r.Ok? <==> s.base <= sequence < s.base + |s.records|
    ensures r.Ok? ==> r.value == sequence - s.base
  {
    if sequence < s.base then Err(PrunedThrough(SaturatingSub(s.base, 1)))
    else if sequence - s.base >= |s.records| then Err(UnknownSequence(sequence))
    else Ok(sequence - s.base)
  }

  function Push(s: Log, hash: Hash): Log
    requires NextSequence(s).Ok?
  {
    s.(records := s.records + [Record(NextSequence(s).value, hash, Accepted)])
  }

  predicate Raises(s: Log, sequence: u64, to: Status) {
    IndexOf(s, sequence).Ok? && Rank(s.records[sequence - s.base].status) < Rank(to)
  }

  function Raised(s: Log, sequence: u64, to: Status): Log
    requires Raises(s, sequence, to)
  {
    var i := sequence - s.base;
    s.(records := s.records[i := s.records[i].(status := to)])
  }

  predicate Prunable(s: Log, watermark: u64) {
    s.records != [] && s.records[0].sequence < watermark && s.records[0].status == Finalized
  }

  function Pruned(s: Log, watermark: u64): Log
    decreases |s.records|
  {
    if Prunable(s, watermark) then Pruned(Log(SaturatingAdd(s.base, 1), s.records[1..]), watermark) else s
  }

  function Hashes(records: seq<Record>): (h: seq<Hash>)
    ensures |h| == |records| && forall i | 0 <= i < |h| :: h[i] == records[i].commandHash
  {
    seq(|records|, i requires 0 <= i < |records| => records[i].commandHash)
  }

  lemma {:induction false} HashesOf(leaves: seq<Hash>, records: seq<Record>, lo: nat, hi: nat)
    requires lo <= hi <= |records| && |leaves| == hi - lo
    requires forall k | 0 <= k < |leaves| :: leaves[k] == records[lo + k].commandHash
    ensures leaves == Hashes(records[lo..hi])
  {
    forall k | 0 <= k < |leaves| ensures leaves[k] == Hashes(records[lo..hi])[k] {
      assert records[lo..hi][k] == records[lo + k];
    }
  }

  function CommandRoot(node: NodeHash, s: Log, first: u64, last: u64): Result<Hash, SequencerError> {
    if last < first then Err(RangeOutOfOrder(first, last))
    else if first < s.base then Err(PrunedThrough(SaturatingSub(s.base, 1)))
    else if first >= s.base + |s.records| then Err(UnknownSequence(first))
    else if last >= s.base + |s.records| then Err(UnknownSequence(s.base + |s.records|))
    else Ok(MerkleRoot(node, Hashes(s.records[first - s.base..last - s.base + 1])))
  }

  // ---- the mutable sequencer -----------------------------------------------

  /** Record i is numbered base + i, and the numbering stays inside u64. */
  ghost predicate Dense(s: Log) {
    s.base + |s.records| <= U64_SIZE && forall i | 0 <= i < |s.records| :: s.records[i].sequence == s.base + i
  }

  class Sequencer {
    var base: u64
    var records: seq<Record>

    function Contents(): Log reads this { Log(base, records) }

    constructor ()
      ensures Contents() == Log(0, [])
    {
      base, records := 0, [];
    }

    method Accept(hash: Hash) returns (r: Result<u64, SequencerError>)
      requires Dense(Contents())
      modifies this
      ensures Dense(Contents()) && r == NextSequence(old(Contents()))
      ensures Contents() == if r.Ok? then Push(old(Contents()), hash) else old(Contents())
    {
      var next :- NextSequence(Contents());
      records := records + [Record(next, hash, Accepted)];
      return Ok(next);
    }

    method Ingest(sequence: u64, hash: Hash) returns (r: Result<(), SequencerError>)
      requires Dense(Contents())
      modifies this
      ensures Dense(Contents())
      ensures r == match old(NextSequence(Contents()))
                   case Ok(next) => if next == sequence then Ok(()) else Err(Gap(next, sequence))
                   case Err(e) => Err(e)
      ensures Contents() == if r.Ok? then Push(old(Contents()), hash) else old(Contents())
    {
      var next :- NextSequence(Contents());
      if sequence != next { return Err(Gap(next, sequence)); }
      records := records + [Record(sequence, hash, Accepted)];
      return Ok(());
    }

    method Advance(sequence: u64, to: Status) returns (r: Result<(), SequencerError>)
      requires Dense(Contents())
      modifies this
      ensures Dense(Contents())
      ensures r.Ok? <==> Raises(old(Contents()), sequence, to)
      ensures r.Err? ==> r.error == match IndexOf(old(Contents()), sequence)
                                    case Ok(i) => InvalidTransition(sequence, old(records)[i].status, to)
                                    case Err(e) => e
      ensures Contents() == if r.Ok? then Raised(old(Contents()), sequence, to) else old(Contents())
    {
      var i :- IndexOf(Contents(), sequence);
      if Rank(to) <= Rank(records[i].status) { return Err(InvalidTransition(sequence, records[i].status, to)); }
      records := records[i := records[i].(status := to)];
      return Ok(());
    }

    /** `command_root`: the loop collects the range hash by hash. */
    method RangeRoot(node: NodeHash, first: u64, last: u64) returns (r: Result<Hash, SequencerError>)
      requires Dense(Contents())
      ensures r == CommandRoot(node, Contents(), first, last)
    {
      if last < first { return Err(RangeOutOfOrder(first, last)); }
      var leaves: seq<Hash> := [];
      var cur: u64 := first;
      while true
        invariant first <= cur <= last
        invariant cur > first ==> base <= first && cur <= base + |records|
        invariant |leaves| == cur - first
        invariant forall k | 0 <= k < |leaves| :: leaves[k] == records[first - base + k].commandHash
        decreases last - cur
      {
        var i :- IndexOf(Contents(), cur);
        leaves := leaves + [records[i].commandHash];
        if cur == last { break; }
        cur := cur + 1;
      }
      HashesOf(leaves, records, first - base, last - base + 1);
      return Ok(MerkleRoot(node, leaves));
    }

    /** `prune_below`: pop finalized records below the watermark; the base never saturates. */
    method PruneBelow(watermark: u64)
      requires Dense(Contents())
      modifies this
      ensures Dense(Contents())
      ensures Contents() == Pruned(old(Contents()), watermark)
      ensures base + |records| == old(base + |records|)
    {
      while records != []
        invariant Dense(Contents())
        invariant Pruned(Contents(), watermark) == Pruned(old(Contents()), watermark)
        invariant base + |records| == old(base + |records|)
        decreases |records|
      {
        if records[0].sequence >= watermark || records[0].status != Finalized { break; }
        records := records[1..];
        base := SaturatingAdd(base, 1);
      }
    }
  }

  // ---- runs against the unpruned history -----------------------------------

  datatype Op =
    Admit(hash: Hash) | Import(sequence: u64, hash: Hash) | Raise(sequence: u64, to: Status) | Prune(watermark: u64)

  function Apply(s: Log, op: Op): Log {
    match op
    case Admit(hash) => if NextSequence(s).Ok? then Push(s, hash) else s
    case Import(sequence, hash) => if NextSequence(s) == Ok(sequence) then Push(s, hash) else s
    case Raise(sequence, to) => if Raises(s, sequence, to) then Raised(s, sequence, to) else s
    case Prune(watermark) => Pruned(s, watermark)
  }

  function After(ops: seq<Op>): Log {
    if ops == [] then Log(0, []) else Apply(After(ops[..|ops| - 1]), ops[|ops| - 1])
  }

  /** The same run on a sequencer that never prunes. */
  function History(ops: seq<Op>): Log {
    if ops == [] then Log(0, [])
    else if ops[|ops| - 1].Prune? then History(ops[..|ops| - 1])
    else Apply(History(ops[..|ops| - 1]), ops[|ops| - 1])
  }

  /** The pruned log is the history with a finalized prefix dropped. */
  ghost predicate Refines(s: Log, full: Log) {
    && full.base == 0 && Dense(full)
    && s.base <= |full.records| && s.records == full.records[s.base..]
    && forall i | 0 <= i < s.base :: full.records[i].status == Finalized
  }

  lemma RefinesDense(s: Log, full: Log)
    requires Refines(s, full)
    ensures Dense(s) && NextSequence(s) == NextSequence(full)
  {
  }

  lemma {:induction false} RefinesPush(s: Log, full: Log, hash: Hash)
    requires Refines(s, full) && NextSequence(s).Ok?
    ensures NextSequence(full).Ok? && Refines(Push(s, hash), Push(full, hash))
  {
    RefinesDense(s, full);
  }

  /** Advancing a pruned sequence fails on both sides: it is already finalized in the history. */
  lemma {:induction false} RefinesRaise(s: Log, full: Log, sequence: u64, to: Status)
    requires Refines(s, full)
    ensures Raises(s, sequence, to) == Raises(full, sequence, to)
    ensures Raises(s, sequence, to) ==> Refines(Raised(s, sequence, to), Raised(full, sequence, to))
  {
    if s.base <= sequence < |full.records| { assert s.records[sequence - s.base] == full.records[sequence]; }
  }

  lemma {:induction false} RefinesPrune(s: Log, full: Log, watermark: u64)
    requires Refines(s, full)
    ensures Refines(Pruned(s, watermark), full)
    ensures Pruned(s, watermark).base >= s.base
    decreases |s.records|
  {
    if Prunable(s, watermark) {
      assert s.records[0] == full.records[s.base];
      assert s.base + 1 < U64_SIZE;
      RefinesPrune(Log(SaturatingAdd(s.base, 1), s.records[1..]), full, watermark);
    }
  }

  /** After every run the sequencer is the unpruned history with a finalized prefix dropped. */
  lemma {:induction false} RunRefines(ops: seq<Op>)
    ensures Refines(After(ops), History(ops))
  {
    if ops != [] {
      var init := ops[..|ops| - 1];
      RunRefines(init);
      var s, full := After(init), History(init);
      RefinesDense(s, full);
      match ops[|ops| - 1]
      case Admit(hash) => if NextSequence(s).Ok? { RefinesPush(s, full, hash); }
      case Import(sequence, hash) => if NextSequence(s) == Ok(sequence) { RefinesPush(s, full, hash); }
      case Raise(sequence, to) => RefinesRaise(s, full, sequence, to);
      case Prune(watermark) => RefinesPrune(s, full, watermark);
    }
  }

  /** Over a range that survives pruning, the command root is that of the same slice of the history; over
      any other range the history would answer but the pruned log says so. */
  lemma {:induction false} RunCommandRoot(node: NodeHash, ops: seq<Op>, first: u64, last: u64)
    ensures first >= After(ops).base ==>
              CommandRoot(node, After(ops), first, last) == CommandRoot(node, History(ops), first, last)
    ensures first <= last && first < After(ops).base ==>
              CommandRoot(node, After(ops), first, last) == Err(PrunedThrough(After(ops).base - 1))
  {
    RunRefines(ops);
    var s, full := After(ops), History(ops);
    if s.base <= first <= last < |full.records| {
      assert s.records[first - s.base..last - s.base + 1] == full.records[first..last + 1];
    }
  }

  // ---- numbering and statuses over whole runs ------------------------------

  /** The sequence numbers handed out by a run, in order. */
  function Assigned(ops: seq<Op>): seq<u64> {
    if ops == [] then []
    else
      var init, op := ops[..|ops| - 1], ops[|ops| - 1];
      var s := After(init);
      var admits := match op
        case Admit(_) => NextSequence(s).Ok?
        case Import(sequence, _) => NextSequence(s) == Ok(sequence)
        case _ => false;
      if admits then Assigned(init) + [NextSequence(s).value] else Assigned(init)
  }

  /** Numbers are handed out as 0, 1, 2, ... whatever is pruned in between, and none twice. */
  lemma {:induction false} NumberingIsGapFree(ops: seq<Op>)
    ensures |Assigned(ops)| == |History(ops).records|
    ensures forall k | 0 <= k < |Assigned(ops)| :: Assigned(ops)[k] == k
  {
    if ops != [] {
      var init := ops[..|ops| - 1];
      NumberingIsGapFree(init);
      RunRefines(init);
      RefinesDense(After(init), History(init));
      if ops[|ops| - 1].Raise? { RefinesRaise(After(init), History(init), ops[|ops| - 1].sequence, ops[|ops| - 1].to); }
    }
  }

  /** Every record of the first log is in the second, with the same hash and a status at least as high. */
  ghost predicate Rises(a: Log, b: Log) {
    && |a.records| <= |b.records|
    && forall i | 0 <= i < |a.records| ::
         && b.records[i].commandHash == a.records[i].commandHash
         && b.records[i].sequence == a.records[i].sequence
         && Rank(b.records[i].status) >= Rank(a.records[i].status)
  }

  lemma OpRises(full: Log, op: Op)
    requires full.base == 0 && Dense(full)
    ensures Rises(full, Apply(full, op)) || op.Prune?
  {
  }

  lemma RisesOn(a: Log, b: Log, c: Log)
    requires Rises(a, b) && Rises(b, c)
    ensures Rises(a, c)
  {
  }

  /** Over any continuation of a run, commands keep their numbers and hashes and statuses only rise. */
  lemma {:induction false} StatusesRise(ops: seq<Op>, later: seq<Op>)
    ensures Rises(History(ops), History(ops + later))
    decreases |later|
  {
    if later == [] {
      assert ops + later == ops;
    } else {
      var init, op := later[..|later| - 1], later[|later| - 1];
      StatusesRise(ops, init);
      assert (ops + later)[..|ops + later| - 1] == ops + init;
      RunRefines(ops + init);
      OpRises(History(ops + init), op);
      if !op.Prune? { RisesOn(History(ops), History(ops + init), Apply(History(ops + init), op)); }
    }
  }

  // ---- gap detection -------------------------------------------------------

  /** The first divergence from expected, expected + 1, ..., counting modulo 2^64. */
  function GapIn(expected: u64, sequences: seq<u64>): Option<(u64, u64)>
    decreases |sequences|
  {
    if sequences == [] then None
    else if sequences[0] != expected then Some((expected, sequences[0]))
    else GapIn((expected + 1) % U64_SIZE, sequences[1..])
  }

  predicate InStep(start: u64, sequences: seq<u64>, n: nat)
    requires n <= |sequences|
  {
    forall k | 0 <= k < n :: sequences[k] == (start + k) % U64_SIZE
  }

  /** The first place where the list leaves start, start + 1, ... modulo 2^64. */
  ghost predicate GapAt(start: u64, sequences: seq<u64>, k: nat, gap: (u64, u64)) {
    k < |sequences| && InStep(start, sequences, k) && gap == ((start + k) % U64_SIZE, sequences[k]) && gap.0 != gap.1
  }

  lemma NextInStep(start: u64, i: nat)
    ensures ((start + i) % U64_SIZE + 1) % U64_SIZE == (start + i + 1) % U64_SIZE
  {
  }

  /** `detect_gap`: one pass with a wrapping counter. */
  method DetectGap(start: u64, sequences: seq<u64>) returns (gap: Option<(u64, u64)>)
    ensures gap == GapIn(start, sequences)
    ensures gap.None? <==> InStep(start, sequences, |sequences|)
    ensures gap.Some? ==> exists k :: GapAt(start, sequences, k, gap.value)
  {
    var expected: u64 := start;
    for i := 0 to |sequences|
      invariant expected == (start + i) % U64_SIZE && InStep(start, sequences, i)
      invariant GapIn(expected, sequences[i..]) == GapIn(start, sequences)
    {
      assert sequences[i..][0] == sequences[i] && sequences[i..][1..] == sequences[i + 1..];
      if sequences[i] != expected {
        assert GapAt(start, sequences, i, (expected, sequences[i]));
        return Some((expected, sequences[i]));
      }
      NextInStep(start, i);
      expected := (expected + 1) % U64_SIZE;
    }
    return None;
  }

  /** What the documentation promises: the numbers are start, start + 1, ... */
  predicate Contiguous(start: u64, sequences: seq<u64>) {
    forall k | 0 <= k < |sequences| :: sequences[k] == start + k
  }

  /** A strictly contiguous list never shows a gap ... */
  lemma {:induction false} ContiguousHasNoGap(start: u64, sequences: seq<u64>)
    requires Contiguous(start, sequences)
    ensures GapIn(start, sequences) == None
    decreases |sequences|
  {
    if |sequences| > 1 {
      assert sequences[1] == start + 1;
      ContiguousHasNoGap(start + 1, sequences[1..]);
    }
  }

  /** ... and below the wrap nothing else passes. */
  lemma {:induction false} NoGapIsContiguous(start: u64, sequences: seq<u64>)
    requires start + |sequences| <= U64_SIZE && GapIn(start, sequences) == None
    ensures Contiguous(start, sequences)
    decreases |sequences|
  {
    if |sequences| > 1 {
      NoGapIsContiguous(start + 1, sequences[1..]);
      forall k | 0 <= k < |sequences| ensures sequences[k] == start + k {
        if k > 0 { assert sequences[k] == sequences[1..][k - 1]; }
      }
    }
  }

  /** The counter's own values from start on. */
  function Wrapping(start: u64, n: nat): (s: seq<u64>)
    ensures |s| == n
    decreases n
  {
    if n == 0 then [] else [start] + Wrapping((start + 1) % U64_SIZE, n - 1)
  }

  lemma {:induction false} WrappingHasNoGap(start: u64, n: nat)
    ensures GapIn(start, Wrapping(start, n)) == None
    decreases n
  {
    if n > 0 { WrappingHasNoGap((start + 1) % U64_SIZE, n - 1); }
  }

  /** The counter's values stop being contiguous where it passes 2^64. */
  lemma {:induction false} WrappingBreaks(start: u64, n: nat)
    requires start + n > U64_SIZE
    ensures !Contiguous(start, Wrapping(start, n))
  {
    var s := Wrapping(start, n);
    var k := U64_SIZE - start;
    assert s[k] < U64_SIZE;
  }

  /** The documented contract fails at the wrap: the list 2^64 - 1, 0 shows no gap. */
  lemma {:induction false} WrapIsNoGap()
    ensures GapIn(U64_SIZE - 1, [U64_SIZE - 1, 0]) == None && !Contiguous(U64_SIZE - 1, [U64_SIZE - 1, 0])
  {
    var s: seq<u64> := [U64_SIZE - 1, 0];
    assert s[1..] == [0] && [0][1..] == [];
    assert GapIn(0, [0]) == GapIn(1, []);
    assert s[1] != U64_SIZE;
  }

  /** "No gap" means "strictly contiguous" for every list of n numbers exactly when the counter does not
      wrap within them. */
  lemma {:induction false} GapIsExact(start: u64, n: nat)
    ensures (forall s: seq<u64> | |s| == n :: GapIn(start, s) == None <==> Contiguous(start, s))
       <==> start + n <= U64_SIZE
  {
    if start + n <= U64_SIZE {
      forall s: seq<u64> | |s| == n ensures GapIn(start, s) == None <==> Contiguous(start, s) {
        if Contiguous(start, s) { ContiguousHasNoGap(start, s); }
        if GapIn(start, s) == None { NoGapIsContiguous(start, s); }
      }
    } else {
      WrappingHasNoGap(start, n);
      WrappingBreaks(start, n);
    }
  }
}

/** The frame envelope and the client's reassembly of one frame from a chunked byte stream. */
module Frame {
  import opened Bytes
  import opened Hashing

  const MAGIC := 0xDE05
  const FRAME_VERSION := 1
  const HEADER_LEN := 19

  datatype TrafficClass =
    | Consensus | RiskReducing | Liquidation | NewOrder | ExecutionReceipt | OracleCert | Checkpoints | MarketData
    | Sync

  datatype Frame = Frame(class_: TrafficClass, msgType: u16, sequence: u64, payload: seq<byte>)

  datatype FrameError =
    | Truncated | BadMagic | UnsupportedVersion(version: u16) | LengthOutOfRange | UnknownClass(class_: byte)
    | BufferTooSmall(required: nat, available: nat)

  function Priority(c: TrafficClass): (p: byte)
    ensures p <= 8 && ClassOf(p) == Some(c)
  {
    match c
    case Consensus => 0 case RiskReducing => 1 case Liquidation => 2 case NewOrder => 3 case ExecutionReceipt => 4
    case OracleCert => 5 case Checkpoints => 6 case MarketData => 7 case Sync => 8
  }

  function ClassOf(v: byte): Option<TrafficClass> {
    match v
    case 0 => Some(Consensus) case 1 => Some(RiskReducing) case 2 => Some(Liquidation) case 3 => Some(NewOrder)
    case 4 => Some(ExecutionReceipt) case 5 => Some(OracleCert) case 6 => Some(Checkpoints)
    case 7 => Some(MarketData) case 8 => Some(Sync) case _ => None
  }

  // ---- one frame -----------------------------------------------------------

  function Header(f: Frame): (h: seq<byte>)
    ensures |h| == HEADER_LEN
  {
    LE(MAGIC, 2) + (LE(FRAME_VERSION, 2) + ([Priority(f.class_)]
      + (LE(f.msgType, 2) + (LE(f.sequence, 8) + LE(|f.payload|, 4)))))
  }

  function Encoded(f: Frame): seq<byte> { Header(f) + f.payload }

  /** `encode_with_max`. */
  function Encode(f: Frame, max: nat): Result<seq<byte>, FrameError> {
    if |f.payload| > max || |f.payload| >= U32_SIZE then Err(LengthOutOfRange) else Ok(Encoded(f))
  }

  /** `decode_ref_with_max`: one frame from the front of a buffer, and the bytes it took. */
  function Decode(b: seq<byte>, max: nat): Result<(Frame, nat), FrameError> {
    if |b| < HEADER_LEN then Err(Truncated)
    else if FromLE(b[0..2]) != MAGIC then Err(BadMagic)
    else if FromLE(b[2..4]) != FRAME_VERSION then Word(b[2..4]); Err(UnsupportedVersion(FromLE(b[2..4])))
    else if ClassOf(b[4]).None? then Err(UnknownClass(b[4]))
    else
      var length := FromLE(b[15..19]);
      if length > max then Err(LengthOutOfRange)
      else if |b| < HEADER_LEN + length then Err(Truncated)
      else
        Word(b[5..7]);
        Word(b[7..15]);
        Ok((Frame(ClassOf(b[4]).value, FromLE(b[5..7]), FromLE(b[7..15]), b[HEADER_LEN..HEADER_LEN + length]),
            HEADER_LEN + length))
  }

  lemma {:induction false} Word(b: seq<byte>)
    ensures FromLE(b) < Pow256(|b|) && LE(FromLE(b), |b|) == b
    ensures Pow256(2) == U16_SIZE && Pow256(4) == U32_SIZE && Pow256(8) == U64_SIZE
  {
    LEOfFromLE(b);
    Pow256Widths();
  }

  lemma {:induction false} HeaderSlices(f: Frame, b: seq<byte>)
    requires |b| >= HEADER_LEN && b[..HEADER_LEN] == Header(f)
    ensures b[0..2] == LE(MAGIC, 2) && b[2..4] == LE(FRAME_VERSION, 2) && b[4] == Priority(f.class_)
    ensures b[5..7] == LE(f.msgType, 2) && b[7..15] == LE(f.sequence, 8) && b[15..19] == LE(|f.payload|, 4)
  {
    var h := Header(f);
    assert b[0..2] == h[0..2] && b[2..4] == h[2..4] && b[4] == h[4];
    assert b[5..7] == h[5..7] && b[7..15] == h[7..15] && b[15..19] == h[15..19];
  }

  lemma {:induction false} HeaderWords(f: Frame)
    requires |f.payload| < U32_SIZE
    ensures FromLE(LE(MAGIC, 2)) == MAGIC && FromLE(LE(FRAME_VERSION, 2)) == FRAME_VERSION
    ensures FromLE(LE(f.msgType, 2)) == f.msgType && FromLE(LE(f.sequence, 8)) == f.sequence
    ensures FromLE(LE(|f.payload|, 4)) == |f.payload|
  {
    Pow256Widths();
    FromLEOfLE(MAGIC, 2);
    FromLEOfLE(FRAME_VERSION, 2);
    FromLEOfLE(f.msgType, 2);
    FromLEOfLE(f.sequence, 8);
    FromLEOfLE(|f.payload|, 4);
  }

  /** An encoded frame decodes to itself and its own length, whatever follows it. */
  lemma {:induction false} DecodeAfterEncode(f: Frame, max: nat, rest: seq<byte>)
    requires Encode(f, max).Ok?
    ensures Decode(Encoded(f) + rest, max) == Ok((f, |Encoded(f)|))
  {
    var b := Encoded(f) + rest;
    assert b[..HEADER_LEN] == Header(f);
    HeaderSlices(f, b);
    HeaderWords(f);
    assert b[HEADER_LEN..HEADER_LEN + |f.payload|] == f.payload;
  }

  /** Whatever decodes is, byte for byte, the encoding of the frame returned. */
  lemma {:induction false} EncodeAfterDecode(b: seq<byte>, max: nat)
    requires Decode(b, max).Ok?
    ensures var (f, n) := Decode(b, max).value;
            HEADER_LEN <= n <= |b| && b[..n] == Encoded(f) && Encode(f, max) == Ok(b[..n])
  {
    var (f, n) := Decode(b, max).value;
    Word(b[0..2]);
    Word(b[2..4]);
    Word(b[5..7]);
    Word(b[7..15]);
    Word(b[15..19]);
    assert Priority(f.class_) == b[4];
    assert b[15..19] == LE(|f.payload|, 4);
    HeaderCuts(b);
    assert b[..n] == b[..HEADER_LEN] + b[HEADER_LEN..n];
  }

  lemma HeaderCuts(b: seq<byte>)
    requires |b| >= HEADER_LEN
    ensures b[..HEADER_LEN] == b[0..2] + (b[2..4] + ([b[4]] + (b[5..7] + (b[7..15] + b[15..19]))))
  {
  }

  // ---- streams of frames ---------------------------------------------------

  function EncodedAll(fs: seq<Frame>): seq<byte> {
    if fs == [] then [] else Encoded(fs[0]) + EncodedAll(fs[1..])
  }

  /** Decode frame after frame to the end, with the length each took. */
  function Split(b: seq<byte>, max: nat): Result<seq<(Frame, nat)>, FrameError>
    decreases |b|
  {
    if b == [] then Ok([])
    else
      var (f, n) :- Decode(b, max);
      EncodeAfterDecode(b, max);
      var rest :- Split(b[n..], max);
      Ok([(f, n)] + rest)
  }

  ghost predicate Sized(fs: seq<Frame>, sized: seq<(Frame, nat)>) {
    |sized| == |fs| && forall i | 0 <= i < |fs| :: sized[i] == (fs[i], |Encoded(fs[i])|)
  }

  /** Any concatenation of encoded frames splits into those frames with those lengths ... */
  lemma {:induction false} SplitAfterEncode(fs: seq<Frame>, max: nat)
    requires forall i | 0 <= i < |fs| :: Encode(fs[i], max).Ok?
    ensures Split(EncodedAll(fs), max).Ok? && Sized(fs, Split(EncodedAll(fs), max).value)
  {
    if fs != [] {
      var rest := EncodedAll(fs[1..]);
      DecodeAfterEncode(fs[0], max, rest);
      SplitAfterEncode(fs[1..], max);
      assert (Encoded(fs[0]) + rest)[|Encoded(fs[0])|..] == rest;
    }
  }

  /** ... and only such a concatenation splits. */
  lemma {:induction false} EncodeAfterSplit(b: seq<byte>, max: nat) returns (fs: seq<Frame>)
    requires Split(b, max).Ok?
    ensures Sized(fs, Split(b, max).value) && EncodedAll(fs) == b
    decreases |b|
  {
    if b == [] {
      fs := [];
    } else {
      var f := FirstFrame(b, max);
      var left := b[|Encoded(f)|..];
      var rest := EncodeAfterSplit(left, max);
      fs := [f] + rest;
      SizedCons(f, rest, Split(left, max).value);
      EncodedCons(f, rest);
    }
  }

  lemma {:induction false} FirstFrame(b: seq<byte>, max: nat) returns (f: Frame)
    requires b != [] && Split(b, max).Ok?
    ensures |Encoded(f)| <= |b| && b == Encoded(f) + b[|Encoded(f)|..] && Split(b[|Encoded(f)|..], max).Ok?
    ensures Split(b, max).value == [(f, |Encoded(f)|)] + Split(b[|Encoded(f)|..], max).value
  {
    EncodeAfterDecode(b, max);
    f := Decode(b, max).value.0;
  }

  lemma SizedCons(f: Frame, rest: seq<Frame>, sized: seq<(Frame, nat)>)
    requires Sized(rest, sized)
    ensures Sized([f] + rest, [(f, |Encoded(f)|)] + sized)
  {
  }

  lemma {:induction false} EncodedCons(f: Frame, rest: seq<Frame>)
    ensures EncodedAll([f] + rest) == Encoded(f) + EncodedAll(rest)
  {
    assert ([f] + rest)[1..] == rest;
  }

  // ---- encoding into a preallocated vector ---------------------------------

  /** A byte vector that is never grown past the capacity it was given. */
  class ByteVec {
    const capacity: nat
    var bytes: seq<byte>

    constructor (capacity: nat)
      ensures this.capacity == capacity && bytes == []
    {
      this.capacity := capacity;
      bytes := [];
    }

    /** `encode_parts_into`: the same bytes as `Encode`, or an error and an untouched vector. */
    method EncodeInto(f: Frame, max: nat) returns (r: Result<nat, FrameError>)
      modifies this
      ensures r == if |f.payload| > max then Err(LengthOutOfRange)
                   else if |Encoded(f)| > capacity then Err(BufferTooSmall(|Encoded(f)|, capacity))
                   else if |f.payload| >= U32_SIZE then Err(LengthOutOfRange)
                   else Ok(|Encoded(f)|)
      ensures r.Ok? <==> Encode(f, max).Ok? && |Encoded(f)| <= capacity
      ensures r.Ok? ==> r.value == |bytes| && bytes == Encoded(f)
      ensures r.Err? ==> bytes == old(bytes)
    {
      if |f.payload| > max { return Err(LengthOutOfRange); }
      var required := HEADER_LEN + |f.payload|;
      if capacity < required { return Err(BufferTooSmall(required, capacity)); }
      if |f.payload| >= U32_SIZE { return Err(LengthOutOfRange); }
      bytes := [];
      bytes := bytes + LE(MAGIC, 2);
      bytes := bytes + LE(FRAME_VERSION, 2);
      bytes := bytes + [Priority(f.class_)];
      bytes := bytes + LE(f.msgType, 2);
      bytes := bytes + LE(f.sequence, 8);
      bytes := bytes + LE(|f.payload|, 4);
      assert bytes == Header(f);
      bytes := bytes + f.payload;
      return Ok(required);
    }
  }

  // ---- TCP reassembly ------------------------------------------------------

  /** The one frame at the front of a stream, judged by its length field alone. */
  function FrontFrame(stream: seq<byte>): Option<seq<byte>> {
    if |stream| < HEADER_LEN then None
    else
      var need := HEADER_LEN + FromLE(stream[15..19]);
      if |stream| < need then None else Some(stream[..need])
  }

  /** The response side of `NodeTcpTransport.exchange`. */
  class Reassembly {
    var chunks: seq<seq<byte>>
    var need: int
    var resolved: Option<seq<byte>>

    /** Pending: nothing resolved, and `need` is set exactly when a whole header has arrived. */
    ghost predicate Pending()
      reads this
    {
      var buf := Concat(chunks);
      && resolved.None?
      && (|buf| < HEADER_LEN ==> need < 0)
      && (|buf| >= HEADER_LEN ==> need == HEADER_LEN + FromLE(buf[15..19]) && |buf| < need)
    }

    constructor ()
      ensures Pending() && chunks == []
    {
      chunks, need, resolved := [], -1, None;
    }

    /** `onData`. */
    method OnData(chunk: seq<byte>)
      requires Pending()
      modifies this
      ensures chunks == old(chunks) + [chunk]
      ensures resolved == FrontFrame(Concat(chunks))
      ensures resolved.None? ==> Pending()
    {
      chunks := chunks + [chunk];
      ghost var before := Concat(old(chunks));
      ConcatAppend(old(chunks), [chunk]);
      var buf := Concat(chunks);
      assert buf == before + chunk by { assert Concat([chunk]) == chunk + []; }
      if |before| >= HEADER_LEN { assert buf[15..19] == before[15..19]; }
      if need < 0 && |buf| >= HEADER_LEN {
        need := HEADER_LEN + FromLE(buf[15..19]);
      }
      if need >= 0 && |buf| >= need {
        resolved := Some(buf[..need]);
      }
    }
  }

  lemma {:induction false} FrontFrameStable(a: seq<byte>, b: seq<byte>)
    requires FrontFrame(a).Some?
    ensures FrontFrame(a + b) == FrontFrame(a)
  {
    assert (a + b)[15..19] == a[15..19];
    var need := |FrontFrame(a).value|;
    assert (a + b)[..need] == a[..need];
  }

  /** However the stream is cut into chunks, the response is the frame at its front. */
  method Receive(chunks: seq<seq<byte>>) returns (response: Option<seq<byte>>)
    ensures response == FrontFrame(Concat(chunks))
  {
    var socket := new Reassembly();
    for i := 0 to |chunks|
      invariant socket.Pending() && socket.chunks == chunks[..i]
    {
      socket.OnData(chunks[i]);
      assert chunks[..i] + [chunks[i]] == chunks[..i + 1];
      if socket.resolved.Some? {
        ConcatAppend(chunks[..i + 1], chunks[i + 1..]);
        assert chunks[..i + 1] + chunks[i + 1..] == chunks;
        FrontFrameStable(Concat(chunks[..i + 1]), Concat(chunks[i + 1..]));
        return socket.resolved;
      }
    }
    assert chunks[..|chunks|] == chunks;
    return None;
  }

  /** A stream that starts with an encoded frame yields exactly its bytes; a stream cut short of its end
      yields nothing. */
  lemma {:induction false} ReassemblyIsExact(f: Frame, stream: seq<byte>)
    requires |f.payload| < U32_SIZE
    ensures Encoded(f) <= stream ==> FrontFrame(stream) == Some(Encoded(f))
    ensures stream < Encoded(f) ==> FrontFrame(stream) == None
  {
    HeaderWords(f);
    if Encoded(f) <= stream || (stream < Encoded(f) && |stream| >= HEADER_LEN) {
      assert stream[..HEADER_LEN] == Encoded(f)[..HEADER_LEN] == Header(f);
      HeaderSlices(f, stream);
      if Encoded(f) <= stream { assert stream[..|Encoded(f)|] == Encoded(f); }
    }
  }
}

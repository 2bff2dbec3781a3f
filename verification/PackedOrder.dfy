/** Packed order records: fixed little-endian words, bit-packed flags, batches and their authenticated
    preimage. */
module PackedOrder {
  import opened Bytes
  import opened Hashing
  import opened PrefixCode

  const VERSION: byte := 1
  const SUBMIT_LEN := 56
  const CANCEL_LEN := 40
  const REPLACE_LEN := 56

  datatype Side = Bid | Ask
  datatype OrderType = Limit | Market | PostOnly | ReduceOnly
  datatype TimeInForce = Gtc | Ioc | Fok

  /** The fields every record carries. */
  datatype Common = Common(session: u32, nonce: u64, clientId: u64, account: u32, market: u32)

  datatype Order =
    | Submit(common: Common, side: Side, kind: OrderType, tif: TimeInForce, price: i64, quantity: i64, leverage: i64)
    | Cancel(common: Common, orderId: u64)
    | Replace(common: Common, orderId: u64, newPrice: i64, newQuantity: i64)

  datatype OrderError =
    | Truncated | UnsupportedVersion(version: byte) | UnknownTag(tag: byte)
    | InvalidLength(expected: nat, found: nat) | ReservedBits(flags: byte) | InvalidValue
    | BufferTooSmall(needed: nat, available: nat) | BatchSizeOutOfRange(size: nat)
    | RecordCountOutOfRange(count: byte) | RecordCountMismatch(declared: byte, actual: byte)
    | SessionMismatch | TrailingBytes

  /** `validate_values`. */
  predicate ValidOrder(o: Order) {
    match o
    case Submit(_, _, kind, _, price, quantity, leverage) => quantity > 0 && leverage > 0 && (kind.Market? || price > 0)
    case Cancel(_, id) => id != 0
    case Replace(_, id, price, quantity) => id != 0 && price > 0 && quantity > 0
  }

  function Length(o: Order): nat { if o.Submit? then SUBMIT_LEN else if o.Cancel? then CANCEL_LEN else REPLACE_LEN }

  // ---- flags ---------------------------------------------------------------

  function SideBits(s: Side): byte { if s.Bid? then 0 else 1 }

  function KindBits(k: OrderType): byte {
    match k case Limit => 0 case Market => 1 case PostOnly => 2 case ReduceOnly => 3
  }

  function TifBits(t: TimeInForce): byte {
    match t case Gtc => 0 case Ioc => 1 case Fok => 2
  }

  /** Side in bit 0, order type in bits 1-2, time in force in bits 3-4. */
  function Flags(o: Order): byte {
    if o.Submit? then SideBits(o.side) + 2 * KindBits(o.kind) + 8 * TifBits(o.tif) else 0
  }

  function SideOf(flags: byte): Side { if flags % 2 == 0 then Bid else Ask }

  function KindOf(flags: byte): OrderType {
    var v := flags / 2 % 4;
    if v == 0 then Limit else if v == 1 then Market else if v == 2 then PostOnly else ReduceOnly
  }

  function TifOf(flags: byte): Option<TimeInForce> {
    var v := flags / 8 % 4;
    if v == 0 then Some(Gtc) else if v == 1 then Some(Ioc) else if v == 2 then Some(Fok) else None
  }

  lemma FlagsUnpack(o: Order)
    requires o.Submit?
    ensures Flags(o) < 32
    ensures SideOf(Flags(o)) == o.side && KindOf(Flags(o)) == o.kind && TifOf(Flags(o)) == Some(o.tif)
  {
  }

  lemma FlagsRepack(flags: byte)
    requires flags < 32 && TifOf(flags).Some?
    ensures SideBits(SideOf(flags)) + 2 * KindBits(KindOf(flags)) + 8 * TifBits(TifOf(flags).value) == flags
  {
  }

  // ---- words ---------------------------------------------------------------

  function Tag(o: Order): byte { if o.Submit? then 1 else if o.Cancel? then 2 else 3 }

  function Header(o: Order): (h: seq<byte>)
    ensures |h| == 8
  {
    [VERSION, Tag(o), Length(o), Flags(o)] + LE(o.common.session, 4)
  }

  function Lanes(length: nat): nat { if length == CANCEL_LEN then 5 else 7 }

  function Unsigned(x: i64): u64 { ToUnsigned(x, U64_SIZE) }

  function Signed(x: u64): i64 { ToSigned(x, U64_SIZE) }

  /** The record's machine words, header first. */
  function Words(o: Order): (w: seq<u64>)
    ensures |w| == Lanes(Length(o))
  {
    HeaderWord(o);
    var c := o.common;
    [FromLE(Header(o)), c.nonce, c.clientId, c.account + c.market * U32_SIZE] +
    match o
    case Submit(_, _, _, _, price, quantity, leverage) => [Unsigned(price), Unsigned(quantity), Unsigned(leverage)]
    case Cancel(_, id) => [id]
    case Replace(_, id, price, quantity) => [id, Unsigned(price), Unsigned(quantity)]
  }

  lemma {:induction false} HeaderWord(o: Order)
    ensures FromLE(Header(o)) < U64_SIZE && FromLE(Header(o)) / U32_SIZE == o.common.session
  {
    Pow256Widths();
    LEOfFromLE(Header(o));
    var low := [VERSION, Tag(o), Length(o), Flags(o)];
    FromLESplit(low, LE(o.common.session, 4));
    FromLEOfLE(o.common.session, 4);
    LEOfFromLE(low);
    DivMod(FromLE(low), o.common.session);
  }

  lemma DivMod(low: u32, high: nat)
    ensures (low + high * U32_SIZE) / U32_SIZE == high && (low + high * U32_SIZE) % U32_SIZE == low
  {
  }

  function Store(words: seq<u64>): (b: seq<byte>)
    ensures |b| == 8 * |words|
  {
    if words == [] then [] else LE(words[0], 8) + Store(words[1..])
  }

  function Load(b: seq<byte>): (words: seq<u64>)
    requires |b| % 8 == 0
    ensures |words| == |b| / 8
  {
    if b == [] then [] else WordFits(b[..8]); [FromLE(b[..8])] + Load(b[8..])
  }

  lemma {:induction false} WordFits(b: seq<byte>)
    requires |b| == 8
    ensures FromLE(b) < U64_SIZE
  {
    Pow256Widths();
    LEOfFromLE(b);
  }

  lemma {:induction false} LoadStore(words: seq<u64>)
    ensures Load(Store(words)) == words
  {
    if words != [] {
      Pow256Widths();
      var b := Store(words);
      FromLEOfLE(words[0], 8);
      assert b[..8] == LE(words[0], 8) && b[8..] == Store(words[1..]);
      LoadStore(words[1..]);
    }
  }

  lemma {:induction false} StoreLoad(b: seq<byte>)
    requires |b| % 8 == 0
    ensures Store(Load(b)) == b
  {
    if b != [] {
      StoreLoad(b[8..]);
      LEOfFromLE(b[..8]);
      var words := Load(b);
      assert words[1..] == Load(b[8..]);
      assert b == b[..8] + b[8..];
    }
  }

  // ---- one record ----------------------------------------------------------

  function Encode(o: Order): (b: seq<byte>)
    ensures |b| == Length(o)
  {
    Store(Words(o))
  }

  function ExpectedLength(tag: byte): Option<nat> {
    if tag == 1 then Some(SUBMIT_LEN) else if tag == 2 then Some(CANCEL_LEN) else if tag == 3 then Some(REPLACE_LEN)
    else None
  }

  function CommonOf(words: seq<u64>): Common
    requires |words| >= 4
  {
    Common(words[0] / U32_SIZE, words[1], words[2], words[3] % U32_SIZE, words[3] / U32_SIZE)
  }

  /** The record a tag, flag byte and words spell, before its values are validated. */
  function OrderOf(tag: byte, flags: byte, words: seq<u64>): Result<Order, OrderError>
    requires ExpectedLength(tag).Some? && |words| == Lanes(ExpectedLength(tag).value)
  {
    var c := CommonOf(words);
    if tag == 1 then
      if flags >= 32 then Err(ReservedBits(flags))
      else if TifOf(flags).None? then Err(InvalidValue)
      else Ok(Submit(c, SideOf(flags), KindOf(flags), TifOf(flags).value,
                     Signed(words[4]), Signed(words[5]), Signed(words[6])))
    else if flags != 0 then Err(ReservedBits(flags))
    else if tag == 2 then Ok(Cancel(c, words[4]))
    else Ok(Replace(c, words[4], Signed(words[5]), Signed(words[6])))
  }

  /** `decode_ref`: one record from the front of a byte string, and the length it took. */
  function Decode(b: seq<byte>): Result<(Order, nat), OrderError> {
    if |b| < 4 then Err(Truncated)
    else if b[0] != VERSION then Err(UnsupportedVersion(b[0]))
    else if ExpectedLength(b[1]).None? then Err(UnknownTag(b[1]))
    else
      var expected := ExpectedLength(b[1]).value;
      if b[2] != expected then Err(InvalidLength(expected, b[2]))
      else if |b| < expected then Err(Truncated)
      else
        var o :- OrderOf(b[1], b[3], Load(b[..expected]));
        if ValidOrder(o) then Ok((o, expected)) else Err(InvalidValue)
  }

  lemma {:induction false} EncodeHeader(o: Order, rest: seq<byte>)
    ensures var b := Encode(o) + rest;
            b[0] == VERSION && b[1] == Tag(o) && b[2] == Length(o) && b[3] == Flags(o) && b[..Length(o)] == Encode(o)
  {
    var b := Encode(o) + rest;
    HeaderWord(o);
    LEOfFromLE(Header(o));
    assert b[..8] == Header(o);
    assert b[0] == b[..8][0] && b[1] == b[..8][1] && b[2] == b[..8][2] && b[3] == b[..8][3];
  }

  lemma {:induction false} CommonBack(o: Order)
    ensures CommonOf(Words(o)) == o.common
  {
    HeaderWord(o);
    DivMod(o.common.account, o.common.market);
  }

  lemma {:induction false} OrderBack(o: Order)
    ensures OrderOf(Tag(o), Flags(o), Words(o)) == Ok(o)
  {
    CommonBack(o);
    if o.Submit? { FlagsUnpack(o); }
  }

  /** A valid record decodes back to itself with its exact length, whatever bytes follow. */
  lemma {:induction false} DecodeAfterEncode(o: Order, rest: seq<byte>)
    requires ValidOrder(o)
    ensures Decode(Encode(o) + rest) == Ok((o, Length(o)))
  {
    EncodeHeader(o, rest);
    LoadStore(Words(o));
    OrderBack(o);
  }

  lemma {:induction false} OrderForth(b: seq<byte>, o: Order)
    requires |b| >= 8 && b[0] == VERSION && ExpectedLength(b[1]).Some?
    requires b[2] == ExpectedLength(b[1]).value == |b|
    requires OrderOf(b[1], b[3], Load(b)) == Ok(o)
    ensures Tag(o) == b[1] && Flags(o) == b[3] && Length(o) == |b| && o.common == CommonOf(Load(b))
  {
    if o.Submit? { FlagsRepack(b[3]); }
  }

  lemma {:induction false} HeaderForth(b: seq<byte>, o: Order)
    requires |b| >= CANCEL_LEN && |b| % 8 == 0 && b[0] == VERSION
    requires Tag(o) == b[1] && Length(o) == b[2] && Flags(o) == b[3] && o.common == CommonOf(Load(b))
    ensures Header(o) == b[..8]
  {
    Pow256Widths();
    var low, high := b[..4], b[4..8];
    assert b[..8] == low + high;
    FromLESplit(low, high);
    LEOfFromLE(low);
    LEOfFromLE(high);
    DivMod(FromLE(low), FromLE(high));
    assert o.common.session == FromLE(high);
    assert low == [b[0], b[1], b[2], b[3]];
  }

  lemma {:induction false} WordsForth(b: seq<byte>, o: Order)
    requires |b| >= 8 && b[0] == VERSION && ExpectedLength(b[1]).Some?
    requires b[2] == ExpectedLength(b[1]).value == |b|
    requires OrderOf(b[1], b[3], Load(b)) == Ok(o)
    ensures Words(o) == Load(b)
  {
    OrderForth(b, o);
    HeaderForth(b, o);
    var w := Load(b);
    assert w[3] == w[3] % U32_SIZE + w[3] / U32_SIZE * U32_SIZE;
    assert FromLE(Header(o)) == w[0];
  }

  /** Whatever decodes is valid and re-encodes to exactly the bytes consumed. */
  lemma {:induction false} EncodeAfterDecode(b: seq<byte>)
    requires Decode(b).Ok?
    ensures var (o, n) := Decode(b).value; ValidOrder(o) && n == Length(o) && n <= |b| && b[..n] == Encode(o)
  {
    var (o, n) := Decode(b).value;
    WordsForth(b[..n], o);
    OrderForth(b[..n], o);
    StoreLoad(b[..n]);
  }

  // ---- batches -------------------------------------------------------------

  predicate AllValid(os: seq<Order>) { AllOf(ValidOrder, os) }

  function EncodeAll(os: seq<Order>): seq<byte> { EncodeList(Encode, os) }

  /** Record encodings delimit themselves. */
  lemma {:induction false} OrdersPrefixFree()
    ensures PrefixFree(Encode, ValidOrder)
  {
    forall x, a, y, b | ValidOrder(x) && ValidOrder(y) && Overlap(Encode, x, a, y, b) ensures x == y {
      DecodeAfterEncode(x, a);
      DecodeAfterEncode(y, b);
    }
  }

  /** A byte string is the encoding of at most one list of valid records, of one length. */
  lemma {:induction false} EncodeAllInjective(x: seq<Order>, y: seq<Order>)
    requires AllValid(x) && AllValid(y) && EncodeAll(x) == EncodeAll(y)
    ensures x == y
  {
    OrdersPrefixFree();
    EncodeListInjective(Encode, ValidOrder, x, y);
  }

  // ---- filling buffers -----------------------------------------------------

  /** A buffer with a span overwritten and nothing else. */
  function Overlay(was: seq<byte>, at: nat, bytes: seq<byte>): (now: seq<byte>)
    requires at + |bytes| <= |was|
    ensures |now| == |was|
  {
    was[..at] + bytes + was[at + |bytes|..]
  }

  lemma {:induction false} OverlayTwice(was: seq<byte>, a: seq<byte>, b: seq<byte>)
    requires |a| + |b| <= |was|
    ensures Overlay(Overlay(was, 0, a), |a|, b) == Overlay(was, 0, a + b)
  {
    assert Overlay(was, 0, a)[..|a|] == a && Overlay(was, 0, a)[|a| + |b|..] == was[|a| + |b|..];
  }

  lemma OverlayFront(was: seq<byte>, a: seq<byte>)
    requires |a| <= |was|
    ensures Overlay(was, 0, a)[..|a|] == a && Overlay(was, 0, a)[|a|..] == was[|a|..]
    ensures a == [] ==> Overlay(was, 0, a) == was
  {
  }

  method Put(out: array<byte>, at: nat, bytes: seq<byte>)
    requires at + |bytes| <= out.Length
    modifies out
    ensures out[..] == Overlay(old(out[..]), at, bytes)
  {
    forall i | 0 <= i < |bytes| { out[at + i] := bytes[i]; }
  }

  /** `encode_into` on the slice `lo..hi` of a buffer. */
  method EncodeInto(o: Order, out: array<byte>, lo: nat, hi: nat) returns (r: Result<nat, OrderError>)
    requires lo <= hi <= out.Length
    modifies out
    ensures r == if !ValidOrder(o) then Err(InvalidValue)
                 else if hi - lo < Length(o) then Err(BufferTooSmall(Length(o), hi - lo))
                 else Ok(Length(o))
    ensures out[..] == if r.Ok? then Overlay(old(out[..]), lo, Encode(o)) else old(out[..])
  {
    if !ValidOrder(o) { return Err(InvalidValue); }
    if hi - lo < Length(o) { return Err(BufferTooSmall(Length(o), hi - lo)); }
    Put(out, lo, Encode(o));
    return Ok(Length(o));
  }

  /** The first i records of a batch, encoded. */
  function Front(os: seq<Order>, i: nat): seq<byte>
    requires i <= |os|
  {
    EncodeAll(os[..i])
  }

  lemma {:induction false} FrontStep(os: seq<Order>, i: nat)
    requires i < |os|
    ensures Front(os, i + 1) == Front(os, i) + Encode(os[i])
    ensures |Front(os, i + 1)| <= |EncodeAll(os)|
  {
    assert os[..i + 1] == os[..i] + [os[i]];
    EncodeListAppend(Encode, os[..i], os[i]);
    EncodeListSplit(Encode, os, i + 1);
  }

  lemma {:induction false} FrontEnds(os: seq<Order>)
    ensures Front(os, 0) == [] && Front(os, |os|) == EncodeAll(os)
  {
    assert os[..|os|] == os;
  }

  /** The batch's total length, summed record by record. */
  method BatchLength(os: seq<Order>) returns (total: nat)
    ensures total == |EncodeAll(os)|
  {
    FrontEnds(os);
    total := 0;
    for i := 0 to |os|
      invariant total == |Front(os, i)|
    {
      FrontStep(os, i);
      total := total + Length(os[i]);
    }
  }

  /** How many records at the front, from the i-th on, are valid. */
  function ValidFront(os: seq<Order>, i: nat): (n: nat)
    requires i <= |os|
    ensures i <= n <= |os| && (forall k | i <= k < n :: ValidOrder(os[k])) && (n < |os| ==> !ValidOrder(os[n]))
    decreases |os| - i
  {
    if i < |os| && ValidOrder(os[i]) then ValidFront(os, i + 1) else i
  }

  /** The records before the first invalid one, encoded. */
  function ValidBytes(os: seq<Order>): (b: seq<byte>)
    ensures |b| <= |EncodeAll(os)| && (AllValid(os) ==> b == EncodeAll(os))
  {
    FrontEnds(os);
    EncodeListSplit(Encode, os, ValidFront(os, 0));
    Front(os, ValidFront(os, 0))
  }

  /** `encode_batch_with_backend`: every record up to the first invalid one goes to the front of the buffer;
      a success has them all, and a batch of the wrong size or too long for the buffer writes nothing. */
  method EncodeBatch(os: seq<Order>, out: array<byte>) returns (r: Result<nat, OrderError>)
    modifies out
    ensures r == if !(32 <= |os| <= 128) then Err(BatchSizeOutOfRange(|os|))
                 else if |EncodeAll(os)| > out.Length then Err(BufferTooSmall(|EncodeAll(os)|, out.Length))
                 else if !AllValid(os) then Err(InvalidValue)
                 else Ok(|EncodeAll(os)|)
    ensures out[..] == if !(32 <= |os| <= 128) || |EncodeAll(os)| > out.Length then old(out[..])
                       else Overlay(old(out[..]), 0, ValidBytes(os))
  {
    if !(32 <= |os| <= 128) { return Err(BatchSizeOutOfRange(|os|)); }
    var needed := BatchLength(os);
    if out.Length < needed { return Err(BufferTooSmall(needed, out.Length)); }
    r := FillBatch(os, out, needed);
  }

  /** The cursor loop: each record goes straight to its final span. */
  method FillBatch(os: seq<Order>, out: array<byte>, needed: nat) returns (r: Result<nat, OrderError>)
    requires needed == |EncodeAll(os)| <= out.Length
    modifies out
    ensures r == if AllValid(os) then Ok(needed) else Err(InvalidValue)
    ensures out[..] == Overlay(old(out[..]), 0, ValidBytes(os))
  {
    ghost var was := out[..];
    FillStart(was, os);
    var cursor := 0;
    for i := 0 to |os|
      invariant cursor == |Front(os, i)| <= needed && ValidFront(os, i) == ValidFront(os, 0)
      invariant forall k | 0 <= k < i :: ValidOrder(os[k])
      invariant out[..] == Overlay(was, 0, Front(os, i))
    {
      FillStep(was, os, i);
      var one := EncodeInto(os[i], out, cursor, needed);
      if one.Err? { return Err(one.error); }
      cursor := cursor + one.value;
    }
    return Ok(cursor);
  }

  lemma {:induction false} FillStart(was: seq<byte>, os: seq<Order>)
    ensures |Front(os, 0)| == 0 && Overlay(was, 0, Front(os, 0)) == was && Front(os, |os|) == EncodeAll(os)
  {
    FrontEnds(os);
    OverlayFront(was, []);
  }

  /** One more record behind the first i. */
  lemma {:induction false} FillStep(was: seq<byte>, os: seq<Order>, i: nat)
    requires i < |os| && |EncodeAll(os)| <= |was|
    ensures |Front(os, i + 1)| == |Front(os, i)| + Length(os[i]) <= |EncodeAll(os)|
    ensures Overlay(Overlay(was, 0, Front(os, i)), |Front(os, i)|, Encode(os[i])) == Overlay(was, 0, Front(os, i + 1))
  {
    FrontStep(os, i);
    OverlayTwice(was, Front(os, i), Encode(os[i]));
  }

  /** The bytes before the cursor are these valid records. */
  ghost predicate Parsed(b: seq<byte>, cursor: nat, os: seq<Order>) {
    cursor <= |b| && AllValid(os) && EncodeAll(os) == b[..cursor]
  }

  lemma {:induction false} ParsedStep(b: seq<byte>, cursor: nat, os: seq<Order>, o: Order, k: nat)
    requires Parsed(b, cursor, os) && Decode(b[cursor..]) == Ok((o, k))
    ensures k > 0 && Parsed(b, cursor + k, os + [o])
  {
    EncodeAfterDecode(b[cursor..]);
    assert b[cursor..][..k] == b[cursor..cursor + k];
    ParsedMore(b, cursor, os, o, k);
  }

  lemma {:induction false} ParsedMore(b: seq<byte>, cursor: nat, os: seq<Order>, o: Order, k: nat)
    requires Parsed(b, cursor, os) && ValidOrder(o) && cursor + k <= |b| && b[cursor..cursor + k] == Encode(o)
    ensures Parsed(b, cursor + k, os + [o])
  {
    EncodeListAppend(Encode, os, o);
    CutTwice(b, cursor, k);
  }

  lemma CutTwice(b: seq<byte>, i: nat, k: nat)
    requires i + k <= |b|
    ensures b[..i + k] == b[..i] + b[i..i + k]
  {
  }

  /** Any longer list the bytes encode goes on, at the cursor, with its own next record. */
  lemma {:induction false} ParsedFront(b: seq<byte>, cursor: nat, p: seq<Order>, os: seq<Order>)
    requires Parsed(b, cursor, p) && AllValid(os) && EncodeAll(os) == b
    ensures |p| <= |os| && p == os[..|p|] && b[cursor..] == EncodeAll(os[|p|..])
    ensures |p| < |os| ==> Decode(b[cursor..]) == Ok((os[|p|], Length(os[|p|])))
  {
    OrdersPrefixFree();
    assert b == b[..cursor] + b[cursor..];
    FrontIsPrefix(Encode, ValidOrder, p, b[cursor..], os);
    if |p| < |os| { DecodeAfterEncode(os[|p|], EncodeAll(os[|p|..][1..])); }
  }

  /** These bytes are not a batch of n valid records. */
  ghost predicate NoBatchOf(b: seq<byte>, n: nat) { forall os | |os| == n && AllValid(os) :: EncodeAll(os) != b }

  /** `decode_batch_with_backend`: the slots are filled exactly when the bytes are that many valid records
      and nothing else; otherwise the error is that of the first bad record, or of the bytes left over. */
  method DecodeBatch(b: seq<byte>, out: array<Order>) returns (r: Result<nat, OrderError>)
    modifies out
    ensures r == if !(32 <= out.Length <= 128) then Err(BatchSizeOutOfRange(out.Length))
                 else if EndOf(Decode, b, 0, out.Length).Ok? && EndOf(Decode, b, 0, out.Length).value != |b| then
                   Err(TrailingBytes)
                 else EndOf(Decode, b, 0, out.Length)
    ensures r.Ok? ==> 32 <= out.Length <= 128 && r.value == |b| && AllValid(out[..]) && EncodeAll(out[..]) == b
    ensures r.Err? && 32 <= out.Length <= 128 ==> NoBatchOf(b, out.Length)
  {
    var n := out.Length;
    if !(32 <= n <= 128) { return Err(BatchSizeOutOfRange(n)); }
    var cursor :- DecodeInto(b, out);
    if cursor != |b| {
      NoBatch(b, cursor, out[..], n);
      return Err(TrailingBytes);
    }
    assert b[..cursor] == b;
    return Ok(cursor);
  }

  /** As many records as the buffer has slots, one after another. */
  method DecodeInto(b: seq<byte>, out: array<Order>) returns (r: Result<nat, OrderError>)
    modifies out
    ensures r == EndOf(Decode, b, 0, out.Length)
    ensures r.Ok? ==> Parsed(b, r.value, out[..])
    ensures r.Err? ==> NoBatchOf(b, out.Length)
  {
    var n := out.Length;
    ghost var done: seq<Order> := [];
    var cursor: nat := 0;
    for i := 0 to n
      invariant |done| == i && Parsed(b, cursor, done)
      invariant forall k | 0 <= k < i :: out[k] == done[k]
    {
      var one :- DecodeNext(b, cursor, done, n);
      out[i], cursor := one.0, cursor + one.1;
      done := done + [one.0];
    }
    assert out[..] == done;
    ParsedEnd(b, cursor, done, n);
    return Ok(cursor);
  }

  /** One record from the cursor, or no batch at all. */
  method DecodeNext(b: seq<byte>, cursor: nat, ghost done: seq<Order>, ghost n: nat)
    returns (r: Result<(Order, nat), OrderError>)
    requires Parsed(b, cursor, done) && |done| < n
    ensures r.Ok? ==> Parsed(b, cursor + r.value.1, done + [r.value.0])
    ensures r.Err? ==> EndOf(Decode, b, 0, n) == Err(r.error) && NoBatchOf(b, n)
  {
    r := Decode(b[cursor..]);
    if r.Err? {
      NoBatch(b, cursor, done, n);
      ParsedEnd(b, cursor, done, n);
    } else {
      ParsedStep(b, cursor, done, r.value.0, r.value.1);
    }
  }

  /** Decoding goes on at the cursor. */
  lemma {:induction false} ParsedEnd(b: seq<byte>, cursor: nat, done: seq<Order>, n: nat)
    requires Parsed(b, cursor, done) && |done| <= n
    ensures EndOf(Decode, b, 0, n) == EndOf(Decode, b, cursor, n - |done|)
  {
    OrdersDecode();
    assert b[0..] == EncodeAll(done) + b[cursor..];
    EndBehind(Encode, ValidOrder, Decode, b, 0, done, n);
  }

  lemma {:induction false} OrdersDecode()
    ensures Decodes(Encode, ValidOrder, Decode)
  {
    forall o, rest | ValidOrder(o) ensures Decode(Encode(o) + rest) == Ok((o, |Encode(o)|)) {
      DecodeAfterEncode(o, rest);
    }
  }

  /** Stopped early or with bytes left over: no list of n records has these bytes. */
  lemma {:induction false} NoBatch(b: seq<byte>, cursor: nat, p: seq<Order>, n: nat)
    requires Parsed(b, cursor, p) && |p| <= n
    requires if |p| < n then Decode(b[cursor..]).Err? else cursor < |b|
    ensures NoBatchOf(b, n)
  {
    forall os | |os| == n && AllValid(os) ensures EncodeAll(os) != b {
      if EncodeAll(os) == b { ParsedFront(b, cursor, p, os); }
    }
  }

  // ---- the authenticated preimage ------------------------------------------

  datatype Binding = Binding(session: u32, batchSequence: u64, shard: u16, recordCount: byte)

  const AUTH_DOMAIN := Ascii("dexos.packed-order.batch.v1")
  const AUTH_FIXED_LEN := 27 + 4 + 8 + 2 + 1 + 4

  function AuthFields(binding: Binding, encoded: seq<byte>): seq<seq<byte>>
    requires |encoded| < U32_SIZE
  {
    [AUTH_DOMAIN, LE(binding.session, 4), LE(binding.batchSequence, 8), LE(binding.shard, 2), [binding.recordCount],
     LE(|encoded|, 4)]
  }

  lemma {:induction false} AuthFieldsWidth(binding: Binding, encoded: seq<byte>)
    requires |encoded| < U32_SIZE
    ensures |Concat(AuthFields(binding, encoded))| == AUTH_FIXED_LEN
  {
    var f := AuthFields(binding, encoded);
    ConcatWidth(f);
    assert Width(f) == 27 + Width(f[1..]);
    assert Width(f[1..]) == 4 + (8 + Width(f[1..][1..][1..]));
    assert f[1..][1..][1..] == [f[3], f[4], f[5]];
    assert Width([f[3], f[4], f[5]]) == 2 + Width([f[4], f[5]]);
    assert [f[4], f[5]][1..] == [f[5]];
    assert Width([f[5]]) == 4;
    assert Width([f[4], f[5]]) == 1 + Width([f[5]]);
  }

  function AuthBytes(binding: Binding, encoded: seq<byte>): seq<byte>
    requires |encoded| < U32_SIZE
  {
    Concat(AuthFields(binding, encoded)) + encoded
  }

  /** The preimage determines the binding and the record bytes. */
  lemma {:induction false} AuthBytesInjective(x: Binding, a: seq<byte>, y: Binding, b: seq<byte>)
    requires |a| < U32_SIZE && |b| < U32_SIZE && AuthBytes(x, a) == AuthBytes(y, b)
    ensures x == y && a == b
  {
    var f, g := AuthFields(x, a), AuthFields(y, b);
    AuthFieldsWidth(x, a);
    AuthFieldsWidth(y, b);
    CancelPrefix(Concat(f), a, Concat(g), b);
    ConcatFields(f, g);
    Pow256Widths();
    assert f[1] == g[1] && f[2] == g[2] && f[3] == g[3] && f[4] == g[4];
    LEInjective(x.session, y.session, 4);
    LEInjective(x.batchSequence, y.batchSequence, 8);
    LEInjective(x.shard, y.shard, 2);
    assert x.recordCount == f[4][0] == g[4][0] == y.recordCount;
  }

  predicate Named(session: u32, os: seq<Order>) {
    forall i | 0 <= i < |os| :: os[i].common.session == session
  }

  /** The bytes are this many valid records of the session. */
  ghost predicate SessionRecords(session: u32, encoded: seq<byte>, count: nat) {
    exists os :: |os| == count && AllValid(os) && Named(session, os) && EncodeAll(os) == encoded
  }

  /** What the preimage call accepts. */
  ghost predicate Authentic(binding: Binding, encoded: seq<byte>) {
    1 <= binding.recordCount <= 128 && SessionRecords(binding.session, encoded, binding.recordCount)
  }

  lemma {:induction false} SizeBound(os: seq<Order>)
    ensures |EncodeAll(os)| <= |os| * SUBMIT_LEN
  {
    if os != [] { SizeBound(os[1..]); }
  }

  lemma {:induction false} AuthenticSize(binding: Binding, encoded: seq<byte>)
    requires Authentic(binding, encoded)
    ensures |encoded| <= 128 * SUBMIT_LEN
  {
    var os :| |os| == binding.recordCount && AllValid(os) && Named(binding.session, os) && EncodeAll(os) == encoded;
    SizeBound(os);
  }

  /** The record walk of the preimage call: every record decodes and names the session, and the count is
      kept in a byte. */
  method CountRecords(session: u32, encoded: seq<byte>) returns (r: Result<byte, OrderError>)
    ensures r.Ok? ==> SessionRecords(session, encoded, r.value)
    ensures r.Ok? ==> forall n | SessionRecords(session, encoded, n) :: n == r.value
    ensures r.Err? ==> forall n: nat | n <= 255 :: !SessionRecords(session, encoded, n)
  {
    var cursor: nat, count: byte := 0, 0;
    ghost var os: seq<Order> := [];
    while cursor < |encoded|
      invariant Parsed(encoded, cursor, os) && Named(session, os) && |os| == count
      decreases |encoded| - cursor
    {
      var one := Decode(encoded[cursor..]);
      if one.Err? {
        NoRecords(session, encoded, cursor, os);
        return Err(one.error);
      }
      var (o, k) := one.value;
      if o.common.session != session {
        NoRecords(session, encoded, cursor, os);
        return Err(SessionMismatch);
      }
      if count == 255 {
        NoRecords(session, encoded, cursor, os);
        return Err(RecordCountOutOfRange(255));
      }
      ParsedStep(encoded, cursor, os, o, k);
      os := os + [o];
      cursor, count := cursor + k, count + 1;
    }
    assert encoded[..cursor] == encoded;
    forall n | SessionRecords(session, encoded, n) ensures n == count { SameCount(session, encoded, os, n); }
    return Ok(count);
  }

  lemma {:induction false} SameCount(session: u32, encoded: seq<byte>, os: seq<Order>, n: nat)
    requires AllValid(os) && EncodeAll(os) == encoded && SessionRecords(session, encoded, n)
    ensures n == |os|
  {
    var other :| |other| == n && AllValid(other) && Named(session, other) && EncodeAll(other) == encoded;
    EncodeAllInjective(os, other);
  }

  /** A walk that stops before the end rules out every count of at most 255. */
  lemma {:induction false} NoRecords(session: u32, encoded: seq<byte>, cursor: nat, p: seq<Order>)
    requires Parsed(encoded, cursor, p) && cursor < |encoded|
    requires Decode(encoded[cursor..]).Err? || Decode(encoded[cursor..]).value.0.common.session != session || |p| == 255
    ensures forall n: nat | n <= 255 :: !SessionRecords(session, encoded, n)
  {
    forall n: nat | n <= 255 ensures !SessionRecords(session, encoded, n) {
      if SessionRecords(session, encoded, n) {
        var os :| |os| == n && AllValid(os) && Named(session, os) && EncodeAll(os) == encoded;
        Continues(encoded, cursor, p, os);
      }
    }
  }

  lemma {:induction false} Continues(b: seq<byte>, cursor: nat, p: seq<Order>, os: seq<Order>)
    requires Parsed(b, cursor, p) && cursor < |b| && AllValid(os) && EncodeAll(os) == b
    ensures |p| < |os| && Decode(b[cursor..]) == Ok((os[|p|], Length(os[|p|])))
  {
    ParsedFront(b, cursor, p, os);
    OrdersPrefixFree();
    EmptyBytes(Encode, ValidOrder, os[|p|..]);
  }

  /** `batch_auth_preimage_into`: a rejected call leaves the buffer as it was; an accepted one writes the
      preimage and nothing else. */
  method AuthPreimageInto(binding: Binding, encoded: seq<byte>, out: array<byte>) returns (r: Result<nat, OrderError>)
    modifies out
    ensures r.Ok? <==> Authentic(binding, encoded) && AUTH_FIXED_LEN + |encoded| <= out.Length
    ensures r.Err? ==> out[..] == old(out[..])
    ensures r.Ok? ==> |encoded| < U32_SIZE && r.value == |AuthBytes(binding, encoded)| <= out.Length
                      && out[..] == Overlay(old(out[..]), 0, AuthBytes(binding, encoded))
  {
    if !(1 <= binding.recordCount <= 128) { return Err(RecordCountOutOfRange(binding.recordCount)); }
    var walked := CountRecords(binding.session, encoded);
    if walked.Err? { return Err(walked.error); }
    if walked.value != binding.recordCount { return Err(RecordCountMismatch(binding.recordCount, walked.value)); }
    var needed := AUTH_FIXED_LEN + |encoded|;
    if out.Length < needed { return Err(BufferTooSmall(needed, out.Length)); }
    AuthenticSize(binding, encoded);
    // At most 128 records of at most 56 bytes: the length always fits its u32 field.
    assert |encoded| < U32_SIZE;
    AuthFieldsWidth(binding, encoded);
    WriteFields(AuthFields(binding, encoded), out);
    OverlayTwice(old(out[..]), Concat(AuthFields(binding, encoded)), encoded);
    Put(out, AUTH_FIXED_LEN, encoded);
    return Ok(needed);
  }

  method WriteFields(fields: seq<seq<byte>>, out: array<byte>)
    requires |Concat(fields)| <= out.Length
    modifies out
    ensures out[..] == Overlay(old(out[..]), 0, Concat(fields))
  {
    ghost var was := out[..];
    OverlayFront(was, []);
    var p := 0;
    for i := 0 to |fields|
      invariant p == |Concat(fields[..i])| <= out.Length
      invariant out[..] == Overlay(was, 0, Concat(fields[..i]))
    {
      ConcatSplit(fields, i);
      OverlayTwice(was, Concat(fields[..i]), fields[i]);
      Put(out, p, fields[i]);
      p := p + |fields[i]|;
    }
    assert fields[..|fields|] == fields;
  }

  /** Two accepted batches with one preimage share binding, bytes and record list. */
  lemma {:induction false} AuthBindsRecords(x: Binding, a: seq<Order>, y: Binding, b: seq<Order>)
    requires AllValid(a) && AllValid(b) && |EncodeAll(a)| < U32_SIZE && |EncodeAll(b)| < U32_SIZE
    requires AuthBytes(x, EncodeAll(a)) == AuthBytes(y, EncodeAll(b))
    ensures x == y && a == b
  {
    AuthBytesInjective(x, EncodeAll(a), y, EncodeAll(b));
    EncodeAllInjective(a, b);
  }
}

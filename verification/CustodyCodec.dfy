/** The custody edge's big-endian codec.  A type's codec is its writer, its reader and the values its
    decoder admits; codecs are built from the primitives field by field in wire order. */
module CustodyCodec {
  import opened Bytes
  import opened Hashing

  datatype CodecError = UnexpectedEof | TrailingBytes | InvalidTag(tag: byte) | LengthOutOfRange

  /** What a reader yields: the value and the bytes it leaves, or an error. */
  type Reading<T> = Result<(T, seq<byte>), CodecError>

  /** `Codec`: `write`, `read`, and the values within the decoder's own length bounds. */
  datatype Codec<!T> = Codec(write: T -> seq<byte>, read: seq<byte> -> Reading<T>, fits: T -> bool)

  // ---- the law -------------------------------------------------------------

  ghost predicate ExactAt<T>(c: Codec<T>, b: seq<byte>, x: T, rest: seq<byte>) {
    c.read(b) == Ok((x, rest)) <==> c.fits(x) && b == c.write(x) + rest
  }

  /** Reading yields x and leaves `rest` exactly when the bytes are an admissible x, written, and then `rest`. */
  ghost predicate Exact<T(!new)>(c: Codec<T>) { forall b, x, rest :: ExactAt(c, b, x, rest) }

  /** Reading what was written, followed by anything, returns the value and leaves the rest. */
  lemma {:induction false} ReadAfterWrite<T(!new)>(c: Codec<T>, x: T, rest: seq<byte>)
    requires Exact(c) && c.fits(x)
    ensures c.read(c.write(x) + rest) == Ok((x, rest))
  {
    assert ExactAt(c, c.write(x) + rest, x, rest);
  }

  /** Whatever is read is admissible and is exactly what writing it produces. */
  lemma {:induction false} WriteAfterRead<T(!new)>(c: Codec<T>, b: seq<byte>)
    requires Exact(c) && c.read(b).Ok?
    ensures c.fits(c.read(b).value.0) && b == c.write(c.read(b).value.0) + c.read(b).value.1
  {
    assert ExactAt(c, b, c.read(b).value.0, c.read(b).value.1);
  }

  /** Encodings are prefix-free: the bytes determine the value and where it ends. */
  lemma {:induction false} PrefixFree<T(!new)>(c: Codec<T>, v: T, x: seq<byte>, w: T, y: seq<byte>)
    requires Exact(c) && c.fits(v) && c.fits(w) && c.write(v) + x == c.write(w) + y
    ensures v == w && x == y
  {
    ReadAfterWrite(c, v, x);
    ReadAfterWrite(c, w, y);
  }

  lemma {:induction false} WriteInjective<T(!new)>(c: Codec<T>, v: T, w: T)
    requires Exact(c) && c.fits(v) && c.fits(w) && c.write(v) == c.write(w)
    ensures v == w
  {
    PrefixFree(c, v, [], w, []);
  }

  /** `Codec::decode`: read one value and refuse anything left over. */
  function Decode<T>(c: Codec<T>, b: seq<byte>): Result<T, CodecError> {
    var (v, rest) :- c.read(b);
    if rest == [] then Ok(v) else Err(TrailingBytes)
  }

  /** Decoding inverts encoding exactly: a byte string decodes to x if and only if it is x's encoding and x is
      within the decoder's bounds. */
  lemma {:induction false} DecodeExact<T(!new)>(c: Codec<T>, b: seq<byte>, x: T)
    requires Exact(c)
    ensures Decode(c, b) == Ok(x) <==> c.fits(x) && b == c.write(x)
  {
    assert ExactAt(c, b, x, []);
    assert c.write(x) + [] == c.write(x);
    if Decode(c, b) == Ok(x) { assert c.read(b).value == (x, []); }
  }

  // ---- primitives ----------------------------------------------------------

  function Take(n: nat, b: seq<byte>): (r: Reading<seq<byte>>) {
    if n > |b| then Err(UnexpectedEof) else Ok((b[..n], b[n..]))
  }

  function ReadWord(width: nat, b: seq<byte>): Reading<nat> {
    var (raw, rest) :- Take(width, b);
    Ok((FromBE(raw), rest))
  }

  /** A length prefix, refused when it exceeds the bytes left. */
  function ReadLen(b: seq<byte>): Reading<nat> {
    var (n, rest) :- ReadWord(8, b);
    if n > |rest| then Err(LengthOutOfRange) else Ok((n, rest))
  }

  /** `Writer::len`, which saturates. */
  function LenBytes(n: nat): seq<byte> { BE(if n < U64_SIZE then n else U64_SIZE - 1, 8) }

  function ReadBlob(max: nat, b: seq<byte>): Reading<seq<byte>> {
    var (n, rest) :- ReadLen(b);
    var (raw, rest') :- Take(n, rest);
    if n > max then Err(LengthOutOfRange) else Ok((raw, rest'))
  }

  lemma {:induction false} TakeExact(n: nat, b: seq<byte>, raw: seq<byte>, rest: seq<byte>)
    ensures Take(n, b) == Ok((raw, rest)) <==> |raw| == n && b == raw + rest
  {
    if n <= |b| { assert b == b[..n] + b[n..]; }
    if |raw| == n && b == raw + rest { assert b[..n] == raw && b[n..] == rest; }
  }

  lemma {:induction false} WordExact(width: nat, b: seq<byte>, n: nat, rest: seq<byte>)
    ensures ReadWord(width, b) == Ok((n, rest)) <==> n < Pow256(width) && b == BE(n, width) + rest
  {
    if ReadWord(width, b).Ok? {
      BEOfFromBE(b[..width]);
      assert b == b[..width] + b[width..];
    }
    if n < Pow256(width) && b == BE(n, width) + rest { BESplit(n, width, rest); }
  }

  lemma Regroup(a: seq<byte>, b: seq<byte>, c: seq<byte>)
    ensures (a + b) + c == a + (b + c)
  {
  }

  lemma {:induction false} BlobExact(max: nat, b: seq<byte>, raw: seq<byte>, rest: seq<byte>)
    ensures ReadBlob(max, b) == Ok((raw, rest))
       <==> |raw| <= max && |raw| < U64_SIZE && b == (LenBytes(|raw|) + raw) + rest
  {
    Pow256Widths();
    Regroup(LenBytes(|raw|), raw, rest);
    if ReadBlob(max, b) == Ok((raw, rest)) {
      var (n, left) := ReadWord(8, b).value;
      WordExact(8, b, n, left);
      TakeExact(n, left, raw, rest);
    }
    if |raw| <= max && |raw| < U64_SIZE && b == LenBytes(|raw|) + (raw + rest) {
      WordExact(8, b, |raw|, raw + rest);
      TakeExact(|raw|, raw + rest, raw, rest);
    }
  }

  // ---- combinators ---------------------------------------------------------

  function ReadBoth<A, B>(a: Codec<A>, b: Codec<B>, s: seq<byte>): Reading<(A, B)> {
    var (x, rest) :- a.read(s);
    var (y, rest') :- b.read(rest);
    Ok(((x, y), rest'))
  }

  /** One field, then the others. */
  function Both<A, B>(a: Codec<A>, b: Codec<B>): Codec<(A, B)> {
    Codec((p: (A, B)) => a.write(p.0) + b.write(p.1), (s: seq<byte>) => ReadBoth(a, b, s),
          (p: (A, B)) => a.fits(p.0) && b.fits(p.1))
  }

  lemma BothShape<A, B>(a: Codec<A>, b: Codec<B>, x: A, y: B)
    ensures Both(a, b).fits((x, y)) <==> a.fits(x) && b.fits(y)
    ensures Both(a, b).write((x, y)) == a.write(x) + b.write(y)
  {
  }

  lemma {:induction false} BothExactAt<A(!new), B(!new)>(
    a: Codec<A>, b: Codec<B>, s: seq<byte>, x: A, y: B, rest: seq<byte>)
    requires Exact(a) && Exact(b)
    ensures ReadBoth(a, b, s) == Ok(((x, y), rest))
       <==> a.fits(x) && b.fits(y) && s == (a.write(x) + b.write(y)) + rest
  {
    Regroup(a.write(x), b.write(y), rest);
    assert ExactAt(a, s, x, b.write(y) + rest);
    assert ExactAt(b, b.write(y) + rest, y, rest);
    if ReadBoth(a, b, s) == Ok(((x, y), rest)) {
      var left := a.read(s).value.1;
      assert a.read(s).value == (x, left);
      assert ExactAt(a, s, x, left);
      assert b.read(left).value == (y, rest);
      assert ExactAt(b, left, y, rest);
    }
  }

  lemma {:induction false} BothExact<A(!new), B(!new)>(a: Codec<A>, b: Codec<B>)
    requires Exact(a) && Exact(b)
    ensures Exact(Both(a, b))
  {
    forall s: seq<byte>, p: (A, B), rest: seq<byte> ensures ExactAt(Both(a, b), s, p, rest) {
      BothExactAt(a, b, s, p.0, p.1, rest);
    }
  }

  // Three to eight fields.

  function Fields3<A, B, C>(a: Codec<A>, b: Codec<B>, c: Codec<C>)
    : Codec<(A, (B, C))>
  {
    Both(a, Both(b, c))
  }

  lemma {:induction false} Fields3Exact<A(!new), B(!new), C(!new)>(
    a: Codec<A>, b: Codec<B>, c: Codec<C>)
    requires Exact(a) && Exact(b) && Exact(c)
    ensures Exact(Fields3(a, b, c))
  {
    BothExact(b, c);
    BothExact(a, Both(b, c));
  }

  lemma {:induction false} Fields3Shape<A, B, C>(
    a: Codec<A>, b: Codec<B>, c: Codec<C>, x: A, y: B, z: C)
    ensures Fields3(a, b, c).fits((x, (y, z)))
       <==> a.fits(x) && b.fits(y) && c.fits(z)
    ensures Fields3(a, b, c).write((x, (y, z)))
         == a.write(x) + (b.write(y) + c.write(z))
  {
    BothShape(b, c, y, z);
    BothShape(a, Both(b, c), x, (y, z));
  }

  function Fields4<A, B, C, D>(a: Codec<A>, b: Codec<B>, c: Codec<C>, d: Codec<D>)
    : Codec<(A, (B, (C, D)))>
  {
    Both(a, Fields3(b, c, d))
  }

  lemma {:induction false} Fields4Exact<A(!new), B(!new), C(!new), D(!new)>(
    a: Codec<A>, b: Codec<B>, c: Codec<C>, d: Codec<D>)
    requires Exact(a) && Exact(b) && Exact(c) && Exact(d)
    ensures Exact(Fields4(a, b, c, d))
  {
    Fields3Exact(b, c, d);
    BothExact(a, Fields3(b, c, d));
  }

  lemma {:induction false} Fields4Shape<A, B, C, D>(
    a: Codec<A>, b: Codec<B>, c: Codec<C>, d: Codec<D>, x: A, y: B, z: C, p: D)
    ensures Fields4(a, b, c, d).fits((x, (y, (z, p))))
       <==> a.fits(x) && b.fits(y) && c.fits(z) && d.fits(p)
    ensures Fields4(a, b, c, d).write((x, (y, (z, p))))
         == a.write(x) + (b.write(y) + (c.write(z) + d.write(p)))
  {
    Fields3Shape(b, c, d, y, z, p);
    BothShape(a, Fields3(b, c, d), x, (y, (z, p)));
  }

  function Fields5<A, B, C, D, E>(a: Codec<A>, b: Codec<B>, c: Codec<C>, d: Codec<D>, e: Codec<E>)
    : Codec<(A, (B, (C, (D, E))))>
  {
    Both(a, Fields4(b, c, d, e))
  }

  lemma {:induction false} Fields5Exact<A(!new), B(!new), C(!new), D(!new), E(!new)>(
    a: Codec<A>, b: Codec<B>, c: Codec<C>, d: Codec<D>, e: Codec<E>)
    requires Exact(a) && Exact(b) && Exact(c) && Exact(d) && Exact(e)
    ensures Exact(Fields5(a, b, c, d, e))
  {
    Fields4Exact(b, c, d, e);
    BothExact(a, Fields4(b, c, d, e));
  }

  lemma {:induction false} Fields5Shape<A, B, C, D, E>(
    a: Codec<A>, b: Codec<B>, c: Codec<C>, d: Codec<D>, e: Codec<E>, x: A, y: B, z: C, p: D, q: E)
    ensures Fields5(a, b, c, d, e).fits((x, (y, (z, (p, q)))))
       <==> a.fits(x) && b.fits(y) && c.fits(z) && d.fits(p) && e.fits(q)
    ensures Fields5(a, b, c, d, e).write((x, (y, (z, (p, q)))))
         == a.write(x) + (b.write(y) + (c.write(z) + (d.write(p) + e.write(q))))
  {
    Fields4Shape(b, c, d, e, y, z, p, q);
    BothShape(a, Fields4(b, c, d, e), x, (y, (z, (p, q))));
  }

  function Fields6<A, B, C, D, E, F>(a: Codec<A>, b: Codec<B>, c: Codec<C>, d: Codec<D>, e: Codec<E>,
    f: Codec<F>)
    : Codec<(A, (B, (C, (D, (E, F)))))>
  {
    Both(a, Fields5(b, c, d, e, f))
  }

  lemma {:induction false} Fields6Exact<A(!new), B(!new), C(!new), D(!new), E(!new), F(!new)>(
    a: Codec<A>, b: Codec<B>, c: Codec<C>, d: Codec<D>, e: Codec<E>, f: Codec<F>)
    requires Exact(a) && Exact(b) && Exact(c) && Exact(d) && Exact(e) && Exact(f)
    ensures Exact(Fields6(a, b, c, d, e, f))
  {
    Fields5Exact(b, c, d, e, f);
    BothExact(a, Fields5(b, c, d, e, f));
  }

  lemma {:induction false} Fields6Shape<A, B, C, D, E, F>(
    a: Codec<A>, b: Codec<B>, c: Codec<C>, d: Codec<D>, e: Codec<E>, f: Codec<F>, x: A, y: B, z: C, p: D, q: E,
    r: F)
    ensures Fields6(a, b, c, d, e, f).fits((x, (y, (z, (p, (q, r))))))
       <==> a.fits(x) && b.fits(y) && c.fits(z) && d.fits(p) && e.fits(q) && f.fits(r)
    ensures Fields6(a, b, c, d, e, f).write((x, (y, (z, (p, (q, r))))))
         == a.write(x) + (b.write(y) + (c.write(z) + (d.write(p) + (e.write(q) + f.write(r)))))
  {
    Fields5Shape(b, c, d, e, f, y, z, p, q, r);
    BothShape(a, Fields5(b, c, d, e, f), x, (y, (z, (p, (q, r)))));
  }

  function Fields7<A, B, C, D, E, F, G>(a: Codec<A>, b: Codec<B>, c: Codec<C>, d: Codec<D>, e: Codec<E>,
    f: Codec<F>, g: Codec<G>)
    : Codec<(A, (B, (C, (D, (E, (F, G))))))>
  {
    Both(a, Fields6(b, c, d, e, f, g))
  }

  lemma {:induction false} Fields7Exact<A(!new), B(!new), C(!new), D(!new), E(!new), F(!new), G(!new)>(
    a: Codec<A>, b: Codec<B>, c: Codec<C>, d: Codec<D>, e: Codec<E>, f: Codec<F>, g: Codec<G>)
    requires Exact(a) && Exact(b) && Exact(c) && Exact(d) && Exact(e) && Exact(f) && Exact(g)
    ensures Exact(Fields7(a, b, c, d, e, f, g))
  {
    Fields6Exact(b, c, d, e, f, g);
    BothExact(a, Fields6(b, c, d, e, f, g));
  }

  lemma {:induction false} Fields7Shape<A, B, C, D, E, F, G>(
    a: Codec<A>, b: Codec<B>, c: Codec<C>, d: Codec<D>, e: Codec<E>, f: Codec<F>, g: Codec<G>, x: A, y: B, z: C,
    p: D, q: E, r: F, s: G)
    ensures Fields7(a, b, c, d, e, f, g).fits((x, (y, (z, (p, (q, (r, s)))))))
       <==> a.fits(x) && b.fits(y) && c.fits(z) && d.fits(p) && e.fits(q) && f.fits(r) && g.fits(s)
    ensures Fields7(a, b, c, d, e, f, g).write((x, (y, (z, (p, (q, (r, s)))))))
         == a.write(x) + (b.write(y) + (c.write(z) + (d.write(p) + (e.write(q) + (f.write(r) + g.write(s))))))
  {
    Fields6Shape(b, c, d, e, f, g, y, z, p, q, r, s);
    BothShape(a, Fields6(b, c, d, e, f, g), x, (y, (z, (p, (q, (r, s))))));
  }

  function Fields8<A, B, C, D, E, F, G, H>(a: Codec<A>, b: Codec<B>, c: Codec<C>, d: Codec<D>, e: Codec<E>,
    f: Codec<F>, g: Codec<G>, h: Codec<H>)
    : Codec<(A, (B, (C, (D, (E, (F, (G, H)))))))>
  {
    Both(a, Fields7(b, c, d, e, f, g, h))
  }

  lemma {:induction false} Fields8Exact<A(!new), B(!new), C(!new), D(!new), E(!new), F(!new), G(!new), H(!new)>(
    a: Codec<A>, b: Codec<B>, c: Codec<C>, d: Codec<D>, e: Codec<E>, f: Codec<F>, g: Codec<G>, h: Codec<H>)
    requires Exact(a) && Exact(b) && Exact(c) && Exact(d) && Exact(e) && Exact(f) && Exact(g) && Exact(h)
    ensures Exact(Fields8(a, b, c, d, e, f, g, h))
  {
    Fields7Exact(b, c, d, e, f, g, h);
    BothExact(a, Fields7(b, c, d, e, f, g, h));
  }

  lemma {:induction false} Fields8Shape<A, B, C, D, E, F, G, H>(
    a: Codec<A>, b: Codec<B>, c: Codec<C>, d: Codec<D>, e: Codec<E>, f: Codec<F>, g: Codec<G>, h: Codec<H>,
    x: A, y: B, z: C, p: D, q: E, r: F, s: G, t: H)
    ensures Fields8(a, b, c, d, e, f, g, h).fits((x, (y, (z, (p, (q, (r, (s, t))))))))
       <==> a.fits(x) && b.fits(y) && c.fits(z) && d.fits(p) && e.fits(q) && f.fits(r) && g.fits(s) && h.fits(t)
    ensures Fields8(a, b, c, d, e, f, g, h).write((x, (y, (z, (p, (q, (r, (s, t))))))))
         == a.write(x) + (b.write(y) + (c.write(z) + (d.write(p) + (e.write(q)
            + (f.write(r) + (g.write(s) + h.write(t)))))))
  {
    Fields7Shape(b, c, d, e, f, g, h, y, z, p, q, r, s, t);
    BothShape(a, Fields7(b, c, d, e, f, g, h), x, (y, (z, (p, (q, (r, (s, t)))))));
  }

  function ReadAs<A, B>(c: Codec<A>, to: A -> B, s: seq<byte>): Reading<B> {
    var (x, rest) :- c.read(s);
    Ok((to(x), rest))
  }

  /** The same bytes as a record. */
  function As<A, B>(c: Codec<A>, to: A -> B, from: B -> A): Codec<B> {
    Codec((y: B) => c.write(from(y)), (s: seq<byte>) => ReadAs(c, to, s), (y: B) => c.fits(from(y)))
  }

  lemma AsShape<A, B>(c: Codec<A>, to: A -> B, from: B -> A, y: B)
    ensures As(c, to, from).fits(y) == c.fits(from(y)) && As(c, to, from).write(y) == c.write(from(y))
  {
  }

  /** `to` and `from` undo each other, as far as the codec admits the value. */
  ghost predicate Inverse<A(!new), B(!new)>(c: Codec<A>, to: A -> B, from: B -> A) {
    (forall x | c.fits(x) :: from(to(x)) == x) && (forall y | c.fits(from(y)) :: to(from(y)) == y)
  }

  lemma {:induction false} AsExact<A(!new), B(!new)>(c: Codec<A>, to: A -> B, from: B -> A)
    requires Exact(c) && Inverse(c, to, from)
    ensures Exact(As(c, to, from))
  {
    var d := As(c, to, from);
    forall s: seq<byte>, y: B, rest: seq<byte> ensures ExactAt(d, s, y, rest) {
      assert ExactAt(c, s, from(y), rest);
      if d.read(s) == Ok((y, rest)) { assert ExactAt(c, s, c.read(s).value.0, rest); }
    }
  }

  function WriteAll<T>(c: Codec<T>, xs: seq<T>): seq<byte> {
    if xs == [] then [] else c.write(xs[0]) + WriteAll(c, xs[1..])
  }

  function ReadAll<T>(c: Codec<T>, n: nat, b: seq<byte>): Reading<seq<T>> {
    if n == 0 then Ok(([], b))
    else
      var (x, rest) :- c.read(b);
      var (xs, rest') :- ReadAll(c, n - 1, rest);
      Ok(([x] + xs, rest'))
  }

  function ReadList<T>(c: Codec<T>, max: nat, b: seq<byte>): Reading<seq<T>> {
    var (n, rest) :- ReadLen(b);
    if n > max then Err(LengthOutOfRange) else ReadAll(c, n, rest)
  }

  predicate AllFit<T>(c: Codec<T>, xs: seq<T>) { forall i | 0 <= i < |xs| :: c.fits(xs[i]) }

  /** A count, then at most `max` items. */
  function ListOf<T>(c: Codec<T>, max: nat): Codec<seq<T>> {
    Codec((xs: seq<T>) => LenBytes(|xs|) + WriteAll(c, xs), (s: seq<byte>) => ReadList(c, max, s),
          (xs: seq<T>) => |xs| <= max && |xs| < U64_SIZE && AllFit(c, xs))
  }

  /** Items take room, so that a count never exceeds the bytes left. */
  ghost predicate Solid<T(!new)>(c: Codec<T>) { forall x | c.fits(x) :: |c.write(x)| > 0 }

  lemma {:induction false} WriteAllSize<T(!new)>(c: Codec<T>, xs: seq<T>)
    requires Solid(c) && AllFit(c, xs)
    ensures |WriteAll(c, xs)| >= |xs|
  {
    if xs != [] { WriteAllSize(c, xs[1..]); }
  }

  lemma {:induction false} ReadAllAfterWrite<T(!new)>(c: Codec<T>, xs: seq<T>, rest: seq<byte>)
    requires Exact(c) && AllFit(c, xs)
    ensures ReadAll(c, |xs|, WriteAll(c, xs) + rest) == Ok((xs, rest))
  {
    if xs == [] {
      assert WriteAll(c, xs) + rest == rest;
    } else {
      var others := xs[1..];
      Regroup(c.write(xs[0]), WriteAll(c, others), rest);
      ReadAfterWrite(c, xs[0], WriteAll(c, others) + rest);
      ReadAllAfterWrite(c, others, rest);
      assert xs == [xs[0]] + others;
    }
  }

  lemma {:induction false} WriteAllAfterRead<T(!new)>(c: Codec<T>, n: nat, b: seq<byte>)
    requires Exact(c) && ReadAll(c, n, b).Ok?
    ensures var (xs, rest) := ReadAll(c, n, b).value; |xs| == n && AllFit(c, xs) && b == WriteAll(c, xs) + rest
  {
    if n == 0 {
      assert b == [] + b;
    } else {
      var left := c.read(b).value.1;
      var (xs, rest) := ReadAll(c, n, b).value;
      WriteAfterRead(c, b);
      WriteAllAfterRead(c, n - 1, left);
      assert xs[1..] == ReadAll(c, n - 1, left).value.0;
      Regroup(c.write(xs[0]), WriteAll(c, xs[1..]), rest);
    }
  }

  lemma {:induction false} ListExactAt<T(!new)>(c: Codec<T>, max: nat, b: seq<byte>, xs: seq<T>, rest: seq<byte>)
    requires Exact(c) && Solid(c)
    ensures ExactAt(ListOf(c, max), b, xs, rest)
  {
    Pow256Widths();
    Regroup(LenBytes(|xs|), WriteAll(c, xs), rest);
    if ReadList(c, max, b) == Ok((xs, rest)) {
      var (n, left) := ReadWord(8, b).value;
      WordExact(8, b, n, left);
      WriteAllAfterRead(c, n, left);
    }
    if |xs| <= max && |xs| < U64_SIZE && AllFit(c, xs) && b == LenBytes(|xs|) + (WriteAll(c, xs) + rest) {
      WordExact(8, b, |xs|, WriteAll(c, xs) + rest);
      WriteAllSize(c, xs);
      ReadAllAfterWrite(c, xs, rest);
    }
  }

  lemma {:induction false} ListExact<T(!new)>(c: Codec<T>, max: nat)
    requires Exact(c) && Solid(c)
    ensures Exact(ListOf(c, max))
  {
    forall b, xs, rest ensures ExactAt(ListOf(c, max), b, xs, rest) { ListExactAt(c, max, b, xs, rest); }
  }

  // ---- the primitive types -------------------------------------------------

  lemma {:induction false} WordFits(width: nat, b: seq<byte>)
    requires ReadWord(width, b).Ok?
    ensures ReadWord(width, b).value.0 < Pow256(width)
  {
    WordExact(width, b, ReadWord(width, b).value.0, ReadWord(width, b).value.1);
  }

  function ReadU8(b: seq<byte>): Reading<byte> {
    var (n, rest) :- ReadWord(1, b);
    Pow256Widths();
    WordFits(1, b);
    Ok((n, rest))
  }

  function ReadU16(b: seq<byte>): Reading<u16> {
    var (n, rest) :- ReadWord(2, b);
    Pow256Widths();
    WordFits(2, b);
    Ok((n, rest))
  }

  function ReadU32(b: seq<byte>): Reading<u32> {
    var (n, rest) :- ReadWord(4, b);
    Pow256Widths();
    WordFits(4, b);
    Ok((n, rest))
  }

  function ReadU64(b: seq<byte>): Reading<u64> {
    var (n, rest) :- ReadWord(8, b);
    Pow256Widths();
    WordFits(8, b);
    Ok((n, rest))
  }

  function I128Bytes(n: i128): seq<byte> { BE(ToUnsigned(n, U128_SIZE), 16) }

  function ReadI128(b: seq<byte>): Reading<i128> {
    var (n, rest) :- ReadWord(16, b);
    Pow256Widths();
    WordFits(16, b);
    Ok((ToSigned(n, U128_SIZE), rest))
  }

  function ReadHash(b: seq<byte>): Reading<Hash> {
    var (raw, rest) :- Take(32, b);
    Ok((FromBytes(raw), rest))
  }

  const U16: Codec<u16> := Codec((n: u16) => BE(n, 2), (b: seq<byte>) => ReadU16(b), (n: u16) => true)
  const U32: Codec<u32> := Codec((n: u32) => BE(n, 4), (b: seq<byte>) => ReadU32(b), (n: u32) => true)
  const U64: Codec<u64> := Codec((n: u64) => BE(n, 8), (b: seq<byte>) => ReadU64(b), (n: u64) => true)
  const I128: Codec<i128> := Codec((n: i128) => I128Bytes(n), (b: seq<byte>) => ReadI128(b), (n: i128) => true)
  const HASH: Codec<Hash> := Codec((h: Hash) => AsBytes(h), (b: seq<byte>) => ReadHash(b), (h: Hash) => true)

  /** A fixed-size array. */
  function Fixed(n: nat): Codec<seq<byte>> {
    Codec((raw: seq<byte>) => raw, (b: seq<byte>) => Take(n, b), (raw: seq<byte>) => |raw| == n)
  }

  /** A length-prefixed byte string of at most `max` bytes. */
  function Blob(max: nat): Codec<seq<byte>> {
    Codec((raw: seq<byte>) => LenBytes(|raw|) + raw, (b: seq<byte>) => ReadBlob(max, b),
          (raw: seq<byte>) => |raw| <= max && |raw| < U64_SIZE)
  }

  lemma {:induction false} WordsExact()
    ensures Exact(U16) && Exact(U32) && Exact(U64)
  {
    Pow256Widths();
    forall b, n: u16, rest ensures ExactAt(U16, b, n, rest) { WordExact(2, b, n, rest); }
    forall b, n: u32, rest ensures ExactAt(U32, b, n, rest) { WordExact(4, b, n, rest); }
    forall b, n: u64, rest ensures ExactAt(U64, b, n, rest) { WordExact(8, b, n, rest); }
  }

  lemma SignedBack(n: i128)
    ensures 0 <= ToUnsigned(n, U128_SIZE) < U128_SIZE && ToSigned(ToUnsigned(n, U128_SIZE), U128_SIZE) == n
  {
  }

  lemma UnsignedBack(n: nat)
    requires n < U128_SIZE
    ensures ToUnsigned(ToSigned(n, U128_SIZE), U128_SIZE) == n
  {
  }

  lemma {:induction false} I128Exact()
    ensures Exact(I128)
  {
    forall b, n: i128, rest ensures ExactAt(I128, b, n, rest) {
      Pow256Widths();
      SignedBack(n);
      WordExact(16, b, ToUnsigned(n, U128_SIZE), rest);
      if ReadWord(16, b).Ok? {
        WordFits(16, b);
        UnsignedBack(ReadWord(16, b).value.0);
      }
    }
  }

  lemma {:induction false} HashExact()
    ensures Exact(HASH) && Solid(HASH)
  {
    forall b, h: Hash, rest ensures ExactAt(HASH, b, h, rest) {
      TakeExact(32, b, AsBytes(h), rest);
      if Take(32, b).Ok? && ReadHash(b) == Ok((h, rest)) { assert AsBytes(h) == Take(32, b).value.0; }
      if Take(32, b) == Ok((AsBytes(h), rest)) { AsBytesInjective(FromBytes(AsBytes(h)), h); }
    }
  }

  lemma {:induction false} FixedExact(n: nat)
    ensures Exact(Fixed(n)) && (n > 0 ==> Solid(Fixed(n)))
  {
    forall b, raw, rest ensures ExactAt(Fixed(n), b, raw, rest) { TakeExact(n, b, raw, rest); }
  }

  lemma {:induction false} BlobsExact(max: nat)
    ensures Exact(Blob(max))
  {
    forall b, raw, rest ensures ExactAt(Blob(max), b, raw, rest) { BlobExact(max, b, raw, rest); }
  }

  // ---- the mutable writer and reader ---------------------------------------

  /** `Writer`: an append-only buffer. */
  class Writer {
    var buf: seq<byte>

    constructor ()
      ensures buf == []
    {
      buf := [];
    }

    method PutAll(bytes: seq<byte>)
      modifies this
      ensures buf == old(buf) + bytes
    {
      buf := buf + bytes;
    }

    method PutWord(n: nat, width: nat)
      modifies this
      ensures buf == old(buf) + BE(n, width)
    {
      PutAll(BE(n, width));
    }

    method PutI128(n: i128)
      modifies this
      ensures buf == old(buf) + I128Bytes(n)
    {
      PutAll(I128Bytes(n));
    }

    method PutHash(h: Hash)
      modifies this
      ensures buf == old(buf) + AsBytes(h)
    {
      PutAll(AsBytes(h));
    }

    method PutLen(n: nat)
      modifies this
      ensures buf == old(buf) + LenBytes(n)
    {
      PutWord(if n < U64_SIZE then n else U64_SIZE - 1, 8);
    }

    /** A length-prefixed byte string. */
    method PutBlob(bytes: seq<byte>)
      modifies this
      ensures buf == old(buf) + (LenBytes(|bytes|) + bytes)
    {
      Regroup(buf, LenBytes(|bytes|), bytes);
      PutLen(|bytes|);
      PutAll(bytes);
    }
  }

  /** `Reader`: a cursor over a slice, whose length a machine address can hold. */
  class Reader {
    const buf: seq<byte>
    var pos: nat

    ghost predicate Valid() reads this { pos <= |buf| < U64_SIZE / 2 }

    ghost function Left(): seq<byte>
      requires Valid()
      reads this
    {
      buf[pos..]
    }

    /** The method's outcome, and the cursor, are what the reading function says. */
    ghost predicate Agrees<T>(r: Result<T, CodecError>, spec: Reading<T>)
      requires Valid()
      reads this
    {
      match spec
      case Ok(pair) => r == Ok(pair.0) && Left() == pair.1
      case Err(e) => r == Err(e)
    }

    constructor (bytes: seq<byte>)
      requires |bytes| < U64_SIZE / 2
      ensures Valid() && Left() == bytes && buf == bytes
    {
      buf := bytes;
      pos := 0;
    }

    /** `take`: refused without moving when the bytes are not there. */
    method TakeBytes(n: nat) returns (r: Result<seq<byte>, CodecError>)
      requires Valid()
      modifies this
      ensures Valid()
      ensures n <= U64_SIZE / 2 ==> Agrees(r, Take(n, old(Left())))
      ensures r.Err? ==> pos == old(pos)
    {
      if pos + n >= U64_SIZE { return Err(LengthOutOfRange); }
      if pos + n > |buf| { return Err(UnexpectedEof); }
      var taken := buf[pos..pos + n];
      assert taken == buf[pos..][..n];
      pos := pos + n;
      return Ok(taken);
    }

    method GetWord(width: nat) returns (r: Result<nat, CodecError>)
      requires Valid() && width <= 64
      modifies this
      ensures Valid() && Agrees(r, ReadWord(width, old(Left())))
    {
      var raw :- TakeBytes(width);
      return Ok(FromBE(raw));
    }

    method GetU8() returns (r: Result<byte, CodecError>)
      requires Valid()
      modifies this
      ensures Valid() && Agrees(r, ReadU8(old(Left())))
    {
      Pow256Widths();
      if ReadWord(1, Left()).Ok? { WordFits(1, Left()); }
      var n :- GetWord(1);
      return Ok(n);
    }

    method GetU16() returns (r: Result<u16, CodecError>)
      requires Valid()
      modifies this
      ensures Valid() && Agrees(r, ReadU16(old(Left())))
    {
      Pow256Widths();
      if ReadWord(2, Left()).Ok? { WordFits(2, Left()); }
      var n :- GetWord(2);
      return Ok(n);
    }

    method GetU32() returns (r: Result<u32, CodecError>)
      requires Valid()
      modifies this
      ensures Valid() && Agrees(r, ReadU32(old(Left())))
    {
      Pow256Widths();
      if ReadWord(4, Left()).Ok? { WordFits(4, Left()); }
      var n :- GetWord(4);
      return Ok(n);
    }

    method GetU64() returns (r: Result<u64, CodecError>)
      requires Valid()
      modifies this
      ensures Valid() && Agrees(r, ReadU64(old(Left())))
    {
      Pow256Widths();
      if ReadWord(8, Left()).Ok? { WordFits(8, Left()); }
      var n :- GetWord(8);
      return Ok(n);
    }

    method GetI128() returns (r: Result<i128, CodecError>)
      requires Valid()
      modifies this
      ensures Valid() && Agrees(r, ReadI128(old(Left())))
    {
      Pow256Widths();
      if ReadWord(16, Left()).Ok? { WordFits(16, Left()); }
      var n :- GetWord(16);
      return Ok(ToSigned(n, U128_SIZE));
    }

    method GetHash() returns (r: Result<Hash, CodecError>)
      requires Valid()
      modifies this
      ensures Valid() && Agrees(r, ReadHash(old(Left())))
    {
      var raw :- TakeBytes(32);
      return Ok(FromBytes(raw));
    }

    method GetLen() returns (r: Result<nat, CodecError>)
      requires Valid()
      modifies this
      ensures Valid() && Agrees(r, ReadLen(old(Left())))
      ensures r.Ok? ==> r.value <= |buf| - pos
    {
      var n :- GetWord(8);
      if n > |buf| - pos { return Err(LengthOutOfRange); }
      return Ok(n);
    }

    /** `bytes`, then the caller's bound. */
    method GetBlob(max: nat) returns (r: Result<seq<byte>, CodecError>)
      requires Valid()
      modifies this
      ensures Valid() && Agrees(r, ReadBlob(max, old(Left())))
    {
      var n :- GetLen();
      var raw :- TakeBytes(n);
      if n > max { return Err(LengthOutOfRange); }
      return Ok(raw);
    }

    /** `finish`. */
    method Finish() returns (r: Result<(), CodecError>)
      requires Valid()
      ensures r == if Left() == [] then Ok(()) else Err(TrailingBytes)
    {
      if pos == |buf| { return Ok(()); }
      return Err(TrailingBytes);
    }
  }

  // ---- items one by one ----------------------------------------------------

  lemma {:induction false} WriteAllOne<T>(c: Codec<T>, xs: seq<T>, x: T)
    ensures WriteAll(c, xs + [x]) == WriteAll(c, xs) + c.write(x)
  {
    if xs == [] {
      assert (xs + [x])[1..] == [];
    } else {
      assert (xs + [x])[1..] == xs[1..] + [x];
      WriteAllOne(c, xs[1..], x);
      Regroup(c.write(xs[0]), WriteAll(c, xs[1..]), c.write(x));
    }
  }

  /** The items written so far, and one more. */
  lemma {:induction false} WriteAllStep<T>(c: Codec<T>, was: seq<byte>, xs: seq<T>, i: nat)
    requires i < |xs|
    ensures (was + WriteAll(c, xs[..i])) + c.write(xs[i]) == was + WriteAll(c, xs[..i + 1])
  {
    assert xs[..i + 1] == xs[..i] + [xs[i]];
    WriteAllOne(c, xs[..i], xs[i]);
    Regroup(was, WriteAll(c, xs[..i]), c.write(xs[i]));
  }

  /** What reading yields once these items are already read. */
  function Resume<T>(xs: seq<T>, r: Reading<seq<T>>): Reading<seq<T>> {
    var (ys, rest) :- r;
    Ok((xs + ys, rest))
  }

  lemma {:induction false} ResumeEnds<T>(c: Codec<T>, xs: seq<T>, r: Reading<seq<T>>, b: seq<byte>)
    ensures Resume([], r) == r && Resume(xs, ReadAll(c, 0, b)) == Ok((xs, b))
  {
    if r.Ok? { assert [] + r.value.0 == r.value.0; }
    assert xs + [] == xs;
  }

  lemma {:induction false} ResumeStep<T>(c: Codec<T>, xs: seq<T>, n: nat, b: seq<byte>)
    requires n > 0
    ensures c.read(b).Err? ==> Resume(xs, ReadAll(c, n, b)) == Err(c.read(b).error)
    ensures c.read(b).Ok? ==>
              Resume(xs, ReadAll(c, n, b)) == Resume(xs + [c.read(b).value.0], ReadAll(c, n - 1, c.read(b).value.1))
  {
    if c.read(b).Ok? && ReadAll(c, n - 1, c.read(b).value.1).Ok? {
      var x, ys := c.read(b).value.0, ReadAll(c, n - 1, c.read(b).value.1).value.0;
      assert xs + ([x] + ys) == (xs + [x]) + ys;
    }
  }
}

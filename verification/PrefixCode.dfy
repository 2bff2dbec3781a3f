/** Concatenations of self-delimiting encodings, for any encoding whose words are non-empty and never
    prefixes of one another. */
module PrefixCode {
  import opened Bytes

  predicate Overlap<T>(enc: T -> seq<byte>, x: T, a: seq<byte>, y: T, b: seq<byte>) {
    enc(x) + a == enc(y) + b
  }

  /** Encodings of valid values are non-empty, and one never starts another. */
  ghost predicate PrefixFree<T(!new)>(enc: T -> seq<byte>, valid: T -> bool) {
    && (forall x | valid(x) :: enc(x) != [])
    && (forall x, a, y, b {:trigger Overlap(enc, x, a, y, b)} |
          valid(x) && valid(y) && Overlap(enc, x, a, y, b) :: x == y)
  }

  function EncodeList<T>(enc: T -> seq<byte>, xs: seq<T>): seq<byte> {
    if xs == [] then [] else enc(xs[0]) + EncodeList(enc, xs[1..])
  }

  predicate AllOf<T>(valid: T -> bool, xs: seq<T>) { forall i | 0 <= i < |xs| :: valid(xs[i]) }

  lemma {:induction false} SameWord<T(!new)>(
    enc: T -> seq<byte>, valid: T -> bool, x: T, a: seq<byte>, y: T, b: seq<byte>)
    requires PrefixFree(enc, valid) && valid(x) && valid(y) && enc(x) + a == enc(y) + b
    ensures x == y && a == b
  {
    assert Overlap(enc, x, a, y, b);
    CancelPrefix(enc(x), a, enc(y), b);
  }

  lemma EncodeCons<T>(enc: T -> seq<byte>, xs: seq<T>, rest: seq<byte>)
    requires xs != []
    ensures EncodeList(enc, xs) + rest == enc(xs[0]) + (EncodeList(enc, xs[1..]) + rest)
  {
  }

  lemma {:induction false} ConsPrefix<T>(p: seq<T>, xs: seq<T>)
    requires 0 < |p| <= |xs| && p[0] == xs[0] && p[1..] == xs[1..][..|p| - 1]
    ensures p == xs[..|p|] && xs[1..][|p| - 1..] == xs[|p|..]
  {
    assert p == [p[0]] + p[1..];
  }

  lemma {:induction false} EmptyBytes<T(!new)>(enc: T -> seq<byte>, valid: T -> bool, xs: seq<T>)
    requires PrefixFree(enc, valid) && AllOf(valid, xs)
    ensures EncodeList(enc, xs) == [] <==> xs == []
  {
    if xs != [] { assert valid(xs[0]); }
  }

  /** A valid list at the front of an encoded list is a prefix of that list. */
  lemma {:induction false} FrontIsPrefix<T(!new)>(
    enc: T -> seq<byte>, valid: T -> bool, p: seq<T>, rest: seq<byte>, xs: seq<T>)
    requires PrefixFree(enc, valid) && AllOf(valid, p) && AllOf(valid, xs)
    requires EncodeList(enc, p) + rest == EncodeList(enc, xs)
    ensures |p| <= |xs| && p == xs[..|p|] && rest == EncodeList(enc, xs[|p|..])
    decreases |p|
  {
    if p == [] {
      assert EncodeList(enc, p) + rest == rest && xs[0..] == xs;
    } else {
      EmptyBytes(enc, valid, p);
      assert xs != [];
      EncodeCons(enc, p, rest);
      SameWord(enc, valid, p[0], EncodeList(enc, p[1..]) + rest, xs[0], EncodeList(enc, xs[1..]));
      FrontIsPrefix(enc, valid, p[1..], rest, xs[1..]);
      ConsPrefix(p, xs);
    }
  }

  /** Equal bytes come from one list: same length, same values. */
  lemma {:induction false} EncodeListInjective<T(!new)>(enc: T -> seq<byte>, valid: T -> bool, xs: seq<T>, ys: seq<T>)
    requires PrefixFree(enc, valid) && AllOf(valid, xs) && AllOf(valid, ys)
    requires EncodeList(enc, xs) == EncodeList(enc, ys)
    ensures xs == ys
  {
    assert EncodeList(enc, xs) + [] == EncodeList(enc, ys);
    FrontIsPrefix(enc, valid, xs, [], ys);
    EmptyBytes(enc, valid, ys[|xs|..]);
    assert |ys[|xs|..]| == 0;
  }

  lemma {:induction false} EncodeListAppend<T>(enc: T -> seq<byte>, xs: seq<T>, y: T)
    ensures EncodeList(enc, xs + [y]) == EncodeList(enc, xs) + enc(y)
  {
    if xs == [] {
      assert xs + [y] == [y] && [y][1..] == [];
      assert EncodeList(enc, [y]) == enc(y) + [];
    } else {
      assert (xs + [y])[1..] == xs[1..] + [y];
      EncodeListAppend(enc, xs[1..], y);
    }
  }

  lemma {:induction false} EncodeListSplit<T>(enc: T -> seq<byte>, xs: seq<T>, i: nat)
    requires i <= |xs|
    ensures EncodeList(enc, xs) == EncodeList(enc, xs[..i]) + EncodeList(enc, xs[i..])
    decreases i
  {
    if i == 0 {
      assert xs[0..] == xs && EncodeList(enc, xs[..0]) == [];
    } else {
      EncodeListSplit(enc, xs[1..], i - 1);
      assert xs[1..][..i - 1] == xs[..i][1..] && xs[1..][i - 1..] == xs[i..];
    }
  }

  // ---- decoding one after another ------------------------------------------

  /** Whatever follows it, an encoding decodes to its value. */
  ghost predicate Decodes<T(!new), E>(
    enc: T -> seq<byte>, valid: T -> bool, dec: seq<byte> -> Result<(T, nat), E>)
  {
    forall x, rest | valid(x) :: dec(enc(x) + rest) == Ok((x, |enc(x)|))
  }

  /** Where n values decoded one after another from the cursor end, or the error of the first that fails. */
  function EndOf<T, E>(dec: seq<byte> -> Result<(T, nat), E>, b: seq<byte>, cursor: nat, n: nat): Result<nat, E>
    decreases n
  {
    if n == 0 then Ok(cursor)
    else
      var (_, k) :- dec(if cursor <= |b| then b[cursor..] else []);
      EndOf(dec, b, cursor + k, n - 1)
  }

  /** Behind encodings of valid values the decoding of the rest goes on. */
  lemma {:induction false} EndBehind<T(!new), E>(
    enc: T -> seq<byte>, valid: T -> bool, dec: seq<byte> -> Result<(T, nat), E>,
    b: seq<byte>, start: nat, xs: seq<T>, n: nat)
    requires Decodes(enc, valid, dec) && AllOf(valid, xs) && |xs| <= n
    requires start <= |b| && EncodeList(enc, xs) <= b[start..]
    ensures EndOf(dec, b, start, n) == EndOf(dec, b, start + |EncodeList(enc, xs)|, n - |xs|)
    decreases |xs|
  {
    if xs != [] {
      var k, tail := |enc(xs[0])|, EncodeList(enc, xs[1..]);
      assert EncodeList(enc, xs) == enc(xs[0]) + tail;
      assert b[start..] == enc(xs[0]) + b[start + k..];
      assert tail <= b[start + k..];
      EndBehind(enc, valid, dec, b, start + k, xs[1..], n - 1);
    }
  }
}

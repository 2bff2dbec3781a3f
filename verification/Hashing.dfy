/** Domain-separated hashing.  SHA-256 itself is a parameter `sha`: nothing is assumed of it except,
    where a lemma says so, that it has no collision inside an explicit set of preimages. */
module Hashing {
  import opened Bytes

  const HASH_SIZE := U128_SIZE * U128_SIZE

  /** A 32-byte digest, as the number its bytes spell in little-endian order. */
  newtype Hash = n: int | 0 <= n < 0x1_0000_0000_0000_0000_0000_0000_0000_0000_0000_0000_0000_0000_0000_0000_0000_0000

  /** The 32 bytes of a digest, and the digest of 32 bytes. */
  function AsBytes(h: Hash): (s: seq<byte>)
    ensures |s| == 32
  {
    LE(h as int, 32)
  }

  lemma {:induction false} AsBytesInjective(a: Hash, b: Hash)
    requires AsBytes(a) == AsBytes(b)
    ensures a == b
  {
    Pow256Hash();
    LEInjective(a as int, b as int, 32);
  }

  function FromBytes(s: seq<byte>): (h: Hash)
    requires |s| == 32
    ensures AsBytes(h) == s
  {
    Pow256Hash();
    LEOfFromLE(s);
    FromLE(s) as Hash
  }

  lemma {:induction false} Pow256Hash()
    ensures Pow256(32) == HASH_SIZE
  {
    Pow256Widths();
    Pow256Split(16, 16);
  }

  type Sha = seq<byte> -> Hash

  const ZERO: Hash := 0

  /** A byte-string literal. */
  function Ascii(text: string): (s: seq<byte>)
    ensures |s| == |text|
  {
    seq(|text|, i requires 0 <= i < |text| => text[i] as int % 256)
  }

  /** The byte string `hash_domain` feeds to SHA-256: both fields are length-prefixed. */
  function Preimage(domain: seq<byte>, data: seq<byte>): seq<byte> {
    LE(|domain|, 8) + (domain + (LE(|data|, 8) + data))
  }

  function HashDomain(sha: Sha, domain: seq<byte>, data: seq<byte>): Hash {
    sha(Preimage(domain, data))
  }

  predicate Collide(sha: Sha, x: seq<byte>, y: seq<byte>) { sha(x) == sha(y) }

  /** No two distinct members of `s` collide. */
  ghost predicate CollisionFree(sha: Sha, s: iset<seq<byte>>) {
    forall x, y {:trigger Collide(sha, x, y)} | x in s && y in s && Collide(sha, x, y) :: x == y
  }

  /** Distinct (domain, data) pairs never share a preimage: "ab" with "c" is not "a" with "bc". */
  lemma {:induction false} PreimageInjective(d1: seq<byte>, x1: seq<byte>, d2: seq<byte>, x2: seq<byte>)
    requires |d1| < U64_SIZE && |d2| < U64_SIZE
    requires Preimage(d1, x1) == Preimage(d2, x2)
    ensures d1 == d2 && x1 == x2
  {
    var tail1, tail2 := LE(|x1|, 8) + x1, LE(|x2|, 8) + x2;
    CancelPrefix(LE(|d1|, 8), d1 + tail1, LE(|d2|, 8), d2 + tail2);
    Pow256Widths();
    LEInjective(|d1|, |d2|, 8);
    CancelPrefix(d1, tail1, d2, tail2);
    CancelPrefix(LE(|x1|, 8), x1, LE(|x2|, 8), x2);
  }

  /** The parts form feeds the same bytes as the concatenated form. */
  function Concat(parts: seq<seq<byte>>): seq<byte> {
    if parts == [] then [] else parts[0] + Concat(parts[1..])
  }

  /** `hash_domain_parts`, which streams its parts into the hasher, hashes exactly the preimage
      `hash_domain` would hash over their concatenation. */
  method HashDomainParts(sha: Sha, domain: seq<byte>, parts: seq<seq<byte>>) returns (h: Hash)
    requires |domain| < U64_SIZE && |Concat(parts)| < U64_SIZE
    ensures h == HashDomain(sha, domain, Concat(parts))
  {
    var total := 0;
    for i := 0 to |parts|
      invariant Concat(parts) == Concat(parts[..i]) + Concat(parts[i..])
      invariant total == |Concat(parts[..i])|
    {
      ConcatSplit(parts, i);
      total := if total + |parts[i]| < U64_SIZE then total + |parts[i]| else U64_SIZE - 1;
    }
    assert parts[..|parts|] == parts;
    var fed: seq<byte> := [];
    for i := 0 to |parts|
      invariant fed == Concat(parts[..i])
    {
      ConcatSplit(parts, i);
      fed := fed + parts[i];
    }
    h := sha(LE(|domain|, 8) + (domain + (LE(total, 8) + fed)));
  }

  lemma CatAssoc(x: seq<byte>, y: seq<byte>, z: seq<byte>)
    ensures x + (y + z) == (x + y) + z
  {
  }

  lemma {:induction false} ConcatAppend(a: seq<seq<byte>>, b: seq<seq<byte>>)
    ensures Concat(a + b) == Concat(a) + Concat(b)
  {
    if a == [] {
      assert a + b == b;
    } else {
      ConcatAppend(a[1..], b);
      assert (a + b)[0] == a[0] && (a + b)[1..] == a[1..] + b;
      CatAssoc(a[0], Concat(a[1..]), Concat(b));
    }
  }

  /** Concatenations of fields of matching widths determine the fields. */
  lemma {:induction false} ConcatFields(a: seq<seq<byte>>, b: seq<seq<byte>>)
    requires |a| == |b| && forall i | 0 <= i < |a| :: |a[i]| == |b[i]|
    requires Concat(a) == Concat(b)
    ensures a == b
  {
    if a != [] {
      CancelPrefix(a[0], Concat(a[1..]), b[0], Concat(b[1..]));
      ConcatFields(a[1..], b[1..]);
      assert a == [a[0]] + a[1..] && b == [b[0]] + b[1..];
    }
  }

  function Width(parts: seq<seq<byte>>): nat {
    if parts == [] then 0 else |parts[0]| + Width(parts[1..])
  }

  lemma {:induction false} ConcatWidth(parts: seq<seq<byte>>)
    ensures |Concat(parts)| == Width(parts)
  {
    if parts != [] { ConcatWidth(parts[1..]); }
  }

  lemma {:induction false} ConcatSplit(parts: seq<seq<byte>>, i: nat)
    requires i < |parts|
    ensures Concat(parts) == Concat(parts[..i]) + Concat(parts[i..])
    ensures Concat(parts[..i + 1]) == Concat(parts[..i]) + parts[i]
    ensures Concat(parts) == Concat(parts[..i + 1]) + Concat(parts[i + 1..])
  {
    ConcatAppend(parts[..i], parts[i..]);
    assert parts == parts[..i] + parts[i..];
    ConcatAppend(parts[..i], [parts[i]]);
    assert parts[..i + 1] == parts[..i] + [parts[i]];
    ConcatAppend(parts[..i + 1], parts[i + 1..]);
    assert parts == parts[..i + 1] + parts[i + 1..];
    assert Concat([parts[i]]) == parts[i] + Concat([]);
  }
}

/** Bytes, machine-width integers and their fixed-width big- and little-endian encodings. */
module Bytes {
  const U16_SIZE := 0x1_0000
  const U32_SIZE := 0x1_0000_0000
  const U64_SIZE := 0x1_0000_0000_0000_0000
  const U128_SIZE := 0x1_0000_0000_0000_0000_0000_0000_0000_0000

  type byte = b: int | 0 <= b < 256
  type u16 = n: int | 0 <= n < U16_SIZE
  type u32 = n: int | 0 <= n < U32_SIZE
  type u64 = n: int | 0 <= n < U64_SIZE
  type i64 = n: int | -(U64_SIZE / 2) <= n < U64_SIZE / 2
  type i128 = n: int | -(U128_SIZE / 2) <= n < U128_SIZE / 2

  datatype Option<+T> = None | Some(value: T)

  datatype Result<+T, +E> = Ok(value: T) | Err(error: E) {
    predicate IsFailure() { Err? }

    function PropagateFailure<U>(): Result<U, E>
      requires Err?
    {
      Err(error)
    }

    function Extract(): T
      requires Ok?
    {
      value
    }
  }

  /** `checked_add` and `saturating_add` on `u64`. */
  function CheckedAdd(a: u64, b: u64): Option<u64> {
    if a + b < U64_SIZE then Some(a + b) else None
  }

  function SaturatingAdd(a: u64, b: u64): u64 {
    if a + b < U64_SIZE then a + b else U64_SIZE - 1
  }

  function SaturatingSub(a: nat, b: nat): nat {
    if a >= b then a - b else 0
  }

  function Pow2(k: nat): (p: nat)
    ensures p > 0
  {
    if k == 0 then 1 else 2 * Pow2(k - 1)
  }

  lemma {:induction false} Pow2Monotone(a: nat, b: nat)
    requires a <= b
    ensures Pow2(a) <= Pow2(b)
  {
    if a < b { Pow2Monotone(a, b - 1); }
  }

  lemma {:induction false} Pow2Split(a: nat, b: nat)
    ensures Pow2(a + b) == Pow2(a) * Pow2(b)
  {
    if a > 0 { Pow2Split(a - 1, b); }
  }

  lemma {:induction false} Pow2Of64()
    ensures Pow2(64) == U64_SIZE
  {
    assert Pow2(4) == 16;
    Pow2Split(4, 4);
    assert Pow2(8) == 0x100;
    Pow2Split(8, 8);
    assert Pow2(16) == 0x1_0000;
    Pow2Split(16, 16);
    assert Pow2(32) == 0x1_0000_0000;
    Pow2Split(32, 32);
  }

  /** Concatenations that agree, split at one place, agree on both parts. */
  lemma {:induction false} CancelPrefix(a: seq<byte>, b: seq<byte>, c: seq<byte>, d: seq<byte>)
    requires |a| == |c| && a + b == c + d
    ensures a == c && b == d
  {
    assert a == (a + b)[..|a|] && c == (c + d)[..|c|];
    assert b == (a + b)[|a|..] && d == (c + d)[|c|..];
  }

  /** `n >> k`. */
  function Shift(n: nat, k: nat): nat {
    if k == 0 then n else Shift(n / 2, k - 1)
  }

  lemma {:induction false} ShiftZero(n: nat, k: nat)
    ensures Shift(n, k) == 0 <==> n < Pow2(k)
  {
    if k > 0 { ShiftZero(n / 2, k - 1); }
  }

  /** Adding 2^high moves nothing below bit `high`. */
  lemma {:induction false} ShiftHigh(n: nat, k: nat, high: nat)
    requires k <= high
    ensures Shift(n + Pow2(high), k) == Shift(n, k) + Pow2(high - k)
  {
    if k > 0 {
      assert (n + Pow2(high)) / 2 == n / 2 + Pow2(high - 1);
      ShiftHigh(n / 2, k - 1, high - 1);
    }
  }

  function Pow256(k: nat): (p: nat)
    ensures p > 0
  {
    if k == 0 then 1 else 256 * Pow256(k - 1)
  }

  lemma {:induction false} Pow256Widths()
    ensures Pow256(1) == 256 && Pow256(2) == U16_SIZE && Pow256(4) == U32_SIZE
    ensures Pow256(8) == U64_SIZE && Pow256(16) == U128_SIZE
  {
    assert Pow256(4) == 256 * (256 * (256 * 256));
    assert Pow256(6) == 256 * (256 * Pow256(4));
    assert Pow256(8) == 256 * (256 * Pow256(6));
    assert Pow256(10) == 256 * (256 * Pow256(8));
    assert Pow256(12) == 256 * (256 * Pow256(10));
    assert Pow256(14) == 256 * (256 * Pow256(12));
  }

  lemma {:induction false} Pow256Split(a: nat, b: nat)
    ensures Pow256(a + b) == Pow256(a) * Pow256(b)
  {
    if a > 0 { Pow256Split(a - 1, b); }
  }

  // ---- little endian -------------------------------------------------------

  function LE(n: nat, k: nat): (s: seq<byte>)
    ensures |s| == k
  {
    if k == 0 then [] else [n % 256] + LE(n / 256, k - 1)
  }

  function FromLE(s: seq<byte>): nat {
    if s == [] then 0 else s[0] + 256 * FromLE(s[1..])
  }

  lemma {:induction false} FromLEOfLE(n: nat, k: nat)
    requires n < Pow256(k)
    ensures FromLE(LE(n, k)) == n
  {
    if k > 0 {
      FromLEOfLE(n / 256, k - 1);
      assert LE(n, k)[1..] == LE(n / 256, k - 1);
    }
  }

  lemma {:induction false} LEOfFromLE(s: seq<byte>)
    ensures FromLE(s) < Pow256(|s|)
    ensures LE(FromLE(s), |s|) == s
  {
    if s != [] {
      LEOfFromLE(s[1..]);
      assert s == [s[0]] + s[1..];
    }
  }

  /** Fixed-width little-endian encodings of in-range numbers are injective. */
  lemma {:induction false} LEInjective(m: nat, n: nat, k: nat)
    requires m < Pow256(k) && n < Pow256(k)
    requires LE(m, k) == LE(n, k)
    ensures m == n
  {
    FromLEOfLE(m, k);
    FromLEOfLE(n, k);
  }

  lemma {:induction false} FromLESplit(a: seq<byte>, b: seq<byte>)
    ensures FromLE(a + b) == FromLE(a) + Pow256(|a|) * FromLE(b)
  {
    if a == [] {
      assert a + b == b;
    } else {
      assert (a + b)[1..] == a[1..] + b;
      FromLESplit(a[1..], b);
    }
  }

  // ---- big endian ----------------------------------------------------------

  function BE(n: nat, k: nat): (s: seq<byte>)
    ensures |s| == k
  {
    if k == 0 then [] else BE(n / 256, k - 1) + [n % 256]
  }

  function FromBE(s: seq<byte>): nat {
    if s == [] then 0 else 256 * FromBE(s[..|s| - 1]) + s[|s| - 1]
  }

  lemma {:induction false} FromBEOfBE(n: nat, k: nat)
    requires n < Pow256(k)
    ensures FromBE(BE(n, k)) == n
  {
    if k > 0 {
      FromBEOfBE(n / 256, k - 1);
      assert BE(n, k)[..k - 1] == BE(n / 256, k - 1);
    }
  }

  lemma {:induction false} BEOfFromBE(s: seq<byte>)
    ensures FromBE(s) < Pow256(|s|)
    ensures BE(FromBE(s), |s|) == s
  {
    if s != [] {
      var init := s[..|s| - 1];
      BEOfFromBE(init);
      assert s == init + [s[|s| - 1]];
    }
  }

  /** Reading a fixed-width big-endian word and what follows it. */
  lemma {:induction false} BESplit(n: nat, k: nat, rest: seq<byte>)
    requires n < Pow256(k)
    ensures (BE(n, k) + rest)[..k] == BE(n, k) && (BE(n, k) + rest)[k..] == rest
    ensures FromBE((BE(n, k) + rest)[..k]) == n
  {
    FromBEOfBE(n, k);
    assert (BE(n, k) + rest)[..k] == BE(n, k);
  }

  // ---- two's complement ----------------------------------------------------

  /** Reinterpret a signed number of modulus `size` as unsigned, and back. */
  function ToUnsigned(x: int, size: nat): int {
    if x < 0 then x + size else x
  }

  function ToSigned(x: int, size: nat): int {
    if x < size / 2 then x else x - size
  }
}

/** Bytes, and the little- and big-endian integer encodings of pack.h. */
module Bytes {

  type byte = b: int | 0 <= b < 256

  function Pow256(n: nat): (r: nat)
    ensures r > 0
  {
    if n == 0 then 1 else 256 * Pow256(n - 1)
  }

  /** The `n` low-order bytes of `value` in two's complement, least significant first. */
  function PackLE(value: int, n: nat): (r: seq<byte>)
    ensures |r| == n
    decreases n
  {
    if n == 0 then [] else [value % 256] + PackLE(value / 256, n - 1)
  }

  function UnpackLE(bs: seq<byte>): (r: nat) {
    if |bs| == 0 then 0 else bs[0] + 256 * UnpackLE(bs[1..])
  }

  /** The `n` low-order bytes of `value`, most significant first. */
  function PackBE(value: int, n: nat): (r: seq<byte>)
    ensures |r| == n
    decreases n
  {
    if n == 0 then [] else PackBE(value / 256, n - 1) + [value % 256]
  }

  function UnpackBE(bs: seq<byte>): (r: nat) {
    if |bs| == 0 then 0 else 256 * UnpackBE(bs[..|bs| - 1]) + bs[|bs| - 1]
  }

  /** Reads an `n`-byte unsigned number as two's complement. */
  function SignExtend(value: nat, n: nat): int {
    if value >= Pow256(n) / 2 then value - Pow256(n) else value
  }

  /** `n` items of `size` bytes each, counted by addition so that proofs stay linear. */
  function Times(n: nat, size: nat): nat {
    if size == 1 then n else if n == 0 then 0 else size + Times(n - 1, size)
  }

  lemma {:induction false} TimesIs(n: nat, size: nat)
    ensures Times(n, size) == n * size
  {
    if n > 0 {
      TimesIs(n - 1, size);
      assert n * size == size + (n - 1) * size;
    }
  }

  /** A product, computed as the source does. */
  method Product(n: nat, size: nat) returns (r: nat)
    ensures r == Times(n, size)
  {
    TimesIs(n, size);
    r := n * size;
  }

  lemma {:induction false} TimesMonotone(a: nat, b: nat, size: nat)
    requires a <= b
    ensures Times(a, size) <= Times(b, size)
    decreases b
  {
    if a < b {
      TimesMonotone(a, b - 1, size);
    }
  }

  lemma TimesAtLeast(n: nat, size: nat)
    requires n > 0
    ensures Times(n, size) >= size
  {
  }

  lemma MulAtLeast(m: int, d: int)
    requires m > 0 && d >= 1
    ensures m * d >= m
  {
    assert m * d == m + m * (d - 1);
    assert m * (d - 1) >= 0;
  }

  /** Quotient and remainder are unique. */
  lemma DivModUnique(m: int, k: int, r: int, q: int, s: int)
    requires 0 <= r < m && 0 <= s < m && m * k + r == m * q + s
    ensures r == s && k == q
  {
    assert m * (q - k) == m * q - m * k == r - s;
    if q > k {
      MulAtLeast(m, q - k);
    } else if q < k {
      MulAtLeast(m, k - q);
    }
  }

  lemma ModUnique(a: int, m: int, k: int, r: int)
    requires 0 <= r < m && a == m * k + r
    ensures a % m == r && a / m == k
  {
    DivModUnique(m, k, r, a / m, a % m);
  }

  lemma ModStep(value: int, m: int)
    requires m > 0
    ensures value % (256 * m) == value % 256 + 256 * ((value / 256) % m)
  {
    var q, r := value / 256, value % 256;
    var k, s := q / m, q % m;
    assert q == m * k + s;
    assert 256 * q == (256 * m) * k + 256 * s;
    ModUnique(value, 256 * m, k, 256 * s + r);
  }

  lemma {:induction false} UnpackPackLE(value: int, n: nat)
    ensures UnpackLE(PackLE(value, n)) == value % Pow256(n)
    decreases n
  {
    if n > 0 {
      UnpackPackLE(value / 256, n - 1);
      ModStep(value, Pow256(n - 1));
      assert PackLE(value, n)[1..] == PackLE(value / 256, n - 1);
    }
  }

  lemma {:induction false} UnpackPackBE(value: int, n: nat)
    ensures UnpackBE(PackBE(value, n)) == value % Pow256(n)
    decreases n
  {
    if n > 0 {
      UnpackPackBE(value / 256, n - 1);
      ModStep(value, Pow256(n - 1));
      assert PackBE(value, n)[..n - 1] == PackBE(value / 256, n - 1);
    }
  }

  lemma {:induction false} UnpackLEBound(bs: seq<byte>)
    ensures UnpackLE(bs) < Pow256(|bs|)
  {
    if |bs| > 0 {
      UnpackLEBound(bs[1..]);
    }
  }

  lemma {:induction false} UnpackBEBound(bs: seq<byte>)
    ensures UnpackBE(bs) < Pow256(|bs|)
  {
    if |bs| > 0 {
      UnpackBEBound(bs[..|bs| - 1]);
    }
  }

  /** Byte `i` is the digit of 256^i; big-endian bytes are the same ones backwards. */
  lemma {:induction false} ByteOrder(value: int, n: nat, i: nat)
    requires i < n
    ensures PackLE(value, n)[i] == value / Pow256(i) % 256 && PackBE(value, n)[n - 1 - i] == PackLE(value, n)[i]
    decreases n
  {
    if i > 0 {
      ByteOrder(value / 256, n - 1, i - 1);
      DivDiv(value, Pow256(i - 1));
    }
  }

  lemma DivDiv(value: int, m: int)
    requires m > 0
    ensures value / 256 / m == value / (256 * m)
  {
    var q, r := value / 256, value % 256;
    var k, s := q / m, q % m;
    assert q == m * k + s;
    assert 256 * q == (256 * m) * k + 256 * s;
    ModUnique(value, 256 * m, k, 256 * s + r);
  }

  /** A two's complement number survives packing and sign extension. */
  lemma SignedRoundTrip(value: int, n: nat)
    requires n > 0 && -(Pow256(n) / 2) <= value < Pow256(n) / 2
    ensures SignExtend(UnpackLE(PackLE(value, n)), n) == value
  {
    UnpackPackLE(value, n);
    if value < 0 {
      ModUnique(value, Pow256(n), -1, value + Pow256(n));
    } else {
      ModUnique(value, Pow256(n), 0, value);
    }
    assert Pow256(n) == 256 * Pow256(n - 1);
  }

  lemma UnsignedRoundTrip(value: nat, n: nat)
    requires value < Pow256(n)
    ensures UnpackLE(PackLE(value, n)) == value
  {
    UnpackPackLE(value, n);
    ModUnique(value, Pow256(n), 0, value);
  }

  lemma Pow256Values()
    ensures Pow256(1) == 0x100 && Pow256(2) == 0x1_0000 && Pow256(4) == 0x1_0000_0000
    ensures Pow256(8) == 0x1_0000_0000_0000_0000
  {
    assert Pow256(4) == 256 * Pow256(3) && Pow256(3) == 256 * Pow256(2);
    assert Pow256(8) == 256 * Pow256(7) && Pow256(7) == 256 * Pow256(6);
    assert Pow256(6) == 256 * Pow256(5) && Pow256(5) == 256 * Pow256(4);
  }

  /** `buf` with `bs` stored at `p`. */
  function WriteAt(buf: seq<byte>, p: nat, bs: seq<byte>): (r: seq<byte>)
    requires p + |bs| <= |buf|
    ensures |r| == |buf|
  {
    buf[..p] + bs + buf[p + |bs|..]
  }

  function Zeros(n: nat): (r: seq<byte>)
    ensures |r| == n
  {
    seq(n, _ => 0)
  }

  /** memcpy into a buffer at an offset. */
  method Store(buf: array<byte>, p: nat, bs: seq<byte>)
    requires p + |bs| <= buf.Length
    modifies buf
    ensures buf[..] == WriteAt(old(buf[..]), p, bs)
  {
    ghost var before := buf[..];
    for i := 0 to |bs|
      invariant forall k :: p <= k < p + i ==> buf[k] == bs[k - p]
      invariant forall k :: 0 <= k < p || p + i <= k < buf.Length ==> buf[k] == before[k]
    {
      buf[p + i] := bs[i];
    }
  }
}

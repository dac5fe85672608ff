/** Integers as bytes: `serialize_integral` and the bulk path for arrays of integers, on hosts of
    either byte order. */
module Integers {

  type byte = n: int | 0 <= n < 256

  type Width = n: nat | n == 1 || n == 2 || n == 4 || n == 8 witness 1

  const U32 := 0x1_0000_0000

  function Pow(w: nat): (r: nat)
    ensures r > 0 && (w > 0 ==> r % 256 == 0)
  {
    if w == 0 then 1 else 256 * Pow(w - 1)
  }

  /** `w` bytes, least significant first. */
  function LittleEndian(n: nat, w: nat): (r: seq<byte>)
    ensures |r| == w
  {
    if w == 0 then [] else [n % 256] + LittleEndian(n / 256, w - 1)
  }

  function FromLittleEndian(b: seq<byte>): nat {
    if b == [] then 0 else b[0] + 256 * FromLittleEndian(b[1..])
  }

  lemma {:induction false} LittleEndianRoundTrip(n: nat, w: nat)
    requires n < Pow(w)
    ensures FromLittleEndian(LittleEndian(n, w)) == n
  {
    if w > 0 {
      LittleEndianRoundTrip(n / 256, w - 1);
      assert LittleEndian(n, w)[1..] == LittleEndian(n / 256, w - 1);
    }
  }

  lemma {:induction false} FromLittleEndianRoundTrip(b: seq<byte>)
    ensures FromLittleEndian(b) < Pow(|b|)
    ensures LittleEndian(FromLittleEndian(b), |b|) == b
  {
    if b != [] {
      FromLittleEndianRoundTrip(b[1..]);
      LowestByte(b[0], FromLittleEndian(b[1..]), Pow(|b| - 1));
      assert b == [b[0]] + b[1..];
    }
  }

  lemma LowestByte(b: byte, m: nat, p: nat)
    requires m < p
    ensures var n := b + 256 * m; n % 256 == b && n / 256 == m && n < 256 * p
  {}

  /** Of a number that is too large the low bytes are kept. */
  lemma {:induction false} LowBytes(n: nat, w: nat)
    ensures LittleEndian(n % Pow(w), w) == LittleEndian(n, w)
  {
    if w > 0 {
      LowBytes(n / 256, w - 1);
      LowByte(n, Pow(w - 1));
    }
  }

  lemma LowByte(n: nat, m: nat)
    requires m > 0
    ensures n % (256 * m) % 256 == n % 256 && n % (256 * m) / 256 == n / 256 % m
  {
    var q, r := n / 256, n % 256;
    var a, b := q / m, q % m;
    assert n == (256 * m) * a + (256 * b + r);
    assert 256 * b + r < 256 * m;
    Remainder(n, 256 * m, a, 256 * b + r);
  }

  lemma Remainder(n: nat, d: nat, q: nat, r: nat)
    requires n == d * q + r && r < d
    ensures n % d == r
  {
    var p := n / d;
    Multiples(d, p + 1, q);
    Multiples(d, q + 1, p);
    assert n == d * p + n % d;
    assert d * (p + 1) == d * p + d && d * (q + 1) == d * q + d;
  }

  lemma Multiples(d: nat, a: nat, b: nat)
    ensures a <= b ==> d * a <= d * b
  {
    if a <= b {
      assert d * b == d * a + d * (b - a);
    }
  }

  // ---------- two's complement ----------

  predicate InRange(n: int, w: Width, signed: bool) {
    if signed then -(Pow(w) / 2) <= n < Pow(w) / 2 else 0 <= n < Pow(w)
  }

  function ToUnsigned(n: int, w: Width): (r: int) {
    if n < 0 then n + Pow(w) else n
  }

  function FromUnsigned(u: int, w: Width, signed: bool): int {
    if signed && u >= Pow(w) / 2 then u - Pow(w) else u
  }

  lemma TwosComplement(n: int, w: Width, signed: bool)
    requires InRange(n, w, signed)
    ensures 0 <= ToUnsigned(n, w) < Pow(w)
    ensures FromUnsigned(ToUnsigned(n, w), w, signed) == n
  {}

  // ---------- hosts ----------

  datatype Host = Little | Big

  function Reverse(b: seq<byte>): (r: seq<byte>)
    ensures |r| == |b| && forall k | 0 <= k < |b| :: r[k] == b[|b| - 1 - k]
  {
    if b == [] then [] else Reverse(b[1..]) + [b[0]]
  }

  /** An unsigned integer as it lies in the host's memory. */
  function Memory(host: Host, n: nat, w: nat): (r: seq<byte>)
    ensures |r| == w
  {
    if host == Little then LittleEndian(n, w) else Reverse(LittleEndian(n, w))
  }

  function FromMemory(host: Host, b: seq<byte>): nat {
    if host == Little then FromLittleEndian(b) else FromLittleEndian(Reverse(b))
  }

  /** `cpu_to_le` and `le_to_cpu`: a byte swap on a big-endian host. */
  function CpuToLe(host: Host, n: nat, w: nat): nat {
    if host == Little then n else FromLittleEndian(Reverse(LittleEndian(n, w)))
  }

  /** `serialize_integral`: what is copied out of memory after the swap is the same on every host. */
  lemma SerializeIntegral(host: Host, n: nat, w: nat)
    requires n < Pow(w)
    ensures Memory(host, CpuToLe(host, n, w), w) == LittleEndian(n, w)
  {
    var b := LittleEndian(n, w);
    if host == Big {
      FromLittleEndianRoundTrip(Reverse(b));
      assert Reverse(Reverse(b)) == b;
    }
  }

  /** `deserialize_integral`: copying into memory and swapping gives the little-endian value. */
  lemma DeserializeIntegral(host: Host, b: seq<byte>)
    ensures CpuToLe(host, FromMemory(host, b), |b|) == FromLittleEndian(b)
  {
    if host == Big {
      FromLittleEndianRoundTrip(Reverse(b));
      assert Reverse(Reverse(b)) == b;
    }
  }

  predicate CanSerializeFast(host: Host, w: Width) {
    w == 1 || host == Little
  }

  /** The bulk path copies memory unswapped: right for every value exactly when it is taken. */
  lemma BulkCopy(host: Host, w: Width)
    ensures CanSerializeFast(host, w) <==> (forall n: nat | n < Pow(w) :: Memory(host, n, w) == LittleEndian(n, w))
  {
    if host == Big {
      if w == 1 {
        forall n: nat | n < Pow(w) ensures Memory(host, n, w) == LittleEndian(n, w) {
          assert Reverse(LittleEndian(n, w)) == LittleEndian(n, w);
        }
      } else {
        assert 1 < Pow(w) && LittleEndian(1, w)[0] == 1 && LittleEndian(0, w - 1)[w - 2] == 0 by {
          ZeroBytes(w - 1);
        }
        assert LittleEndian(1, w)[w - 1] == 0;
        assert Memory(host, 1, w)[0] == 0;
      }
    }
  }

  lemma {:induction false} ZeroBytes(w: nat)
    ensures forall k | 0 <= k < w :: LittleEndian(0, w)[k] == 0
  {
    if w > 0 {
      ZeroBytes(w - 1);
    }
  }

  /** Reading memory back unswapped is right in the same cases. */
  lemma BulkRead(host: Host, b: seq<byte>)
    requires host == Little || |b| == 1
    ensures FromMemory(host, b) == FromLittleEndian(b)
  {
    if host == Big {
      assert Reverse(b) == b;
    }
  }
}

/** Machine words: 64-bit registers, their signed reading, and little-endian byte strings. */
module Words {

  const TWO32 := 0x1_0000_0000
  const TWO64 := 0x1_0000_0000_0000_0000

  type byte = x: int | 0 <= x < 256
  type u64 = x: int | 0 <= x < 0x1_0000_0000_0000_0000
  type i64 = x: int | -0x8000_0000_0000_0000 <= x < 0x8000_0000_0000_0000

  datatype Option<+T> = None | Some(value: T)

  /** The 64-bit pattern of an integer (two's complement, wrapping). */
  function U(x: int): u64 {
    x % 0x1_0000_0000_0000_0000
  }

  /** The signed reading of a 64-bit pattern. */
  function S(x: u64): i64 {
    if x < 0x8000_0000_0000_0000 then x else x - 0x1_0000_0000_0000_0000
  }

  /** Signed 64-bit wrap-around of a mathematical integer. */
  function Wrap(x: int): i64 {
    S(U(x))
  }

  lemma SignedRoundTrip(x: i64)
    ensures S(U(x)) == x
  {
  }

  lemma UnsignedRoundTrip(x: u64)
    ensures U(S(x)) == x
  {
  }

  /** Adding a multiple of 2^64 does not change the pattern. */
  lemma WrapMultiple(x: int, k: int)
    ensures U(x + k * 0x1_0000_0000_0000_0000) == U(x)
  {
  }

  /** U only depends on the residue, so it may be taken before or after a sum. */
  lemma WrapSum(x: int, y: int)
    ensures U(U(x) + U(y)) == U(x + y)
    ensures U(U(x) - U(y)) == U(x - y)
  {
    var a, b := x / TWO64, y / TWO64;
    assert U(x) == x - a * TWO64 && U(y) == y - b * TWO64;
    hide U;
    WrapMultiple(x + y, -a - b);
    WrapMultiple(x - y, b - a);
  }

  /** The low 64 bits of a product depend only on the low 64 bits of the factors. */
  lemma WrapProduct(x: int, y: int)
    ensures U(U(x) * U(y)) == U(x * y)
  {
    var a, b := x / TWO64, y / TWO64;
    assert x == a * TWO64 + U(x) && y == b * TWO64 + U(y);
    var k := a * b * TWO64 + a * U(y) + b * U(x);
    assert x * y == U(x) * U(y) + k * TWO64 by {
      ProductExpansion(a, b, U(x), U(y), TWO64);
    }
    WrapMultiple(U(x) * U(y), k);
  }

  lemma ProductExpansion(a: int, b: int, p: int, q: int, m: int)
    ensures (a * m + p) * (b * m + q) == p * q + (a * b * m + a * q + b * p) * m
  {
  }

  /** Integer division truncating toward zero, as idiv computes it. */
  function TruncDiv(x: int, y: int): int
    requires y != 0
  {
    if x >= 0 then (if y > 0 then x / y else -(x / -y))
    else (if y > 0 then -(-x / y) else -x / -y)
  }

  function TruncMod(x: int, y: int): int
    requires y != 0
  {
    x - TruncDiv(x, y) * y
  }

  function Pow2(n: nat): (r: nat)
    ensures r >= 1
  {
    if n == 0 then 1 else 2 * Pow2(n - 1)
  }

  /** Bitwise conjunction and disjunction of the low n bits. */
  function BitAnd(x: nat, y: nat, n: nat): (r: nat)
    ensures r < Pow2(n)
  {
    if n == 0 then 0 else (x % 2) * (y % 2) + 2 * BitAnd(x / 2, y / 2, n - 1)
  }

  function BitOr(x: nat, y: nat, n: nat): (r: nat)
    ensures r < Pow2(n)
  {
    if n == 0 then 0 else (if x % 2 + y % 2 > 0 then 1 else 0) + 2 * BitOr(x / 2, y / 2, n - 1)
  }

  function And64(x: u64, y: u64): u64 {
    U(BitAnd(x, y, 64))
  }

  function Or64(x: u64, y: u64): u64 {
    U(BitOr(x, y, 64))
  }

  /** The n-byte little-endian encoding of v, and its reader. */
  function Le(v: int, n: nat): (s: seq<byte>)
    ensures |s| == n
    decreases n, v
  {
    if n == 0 then [] else [v % 256] + Le(v / 256, n - 1)
  }

  /** One byte of a word written low byte first. */
  lemma LeStep(v: nat, n: nat, low: byte, rest: nat)
    requires v == rest * 256 + low as int
    ensures Le(v, n + 1) == [low] + Le(rest, n)
  {
    assert v % 256 == low as int && v / 256 == rest;
  }

  lemma LeNone(v: int)
    ensures Le(v, 0) == []
  {
  }

  function Rd(s: seq<byte>): nat {
    if |s| == 0 then 0 else s[0] as int + 256 * Rd(s[1..])
  }

  function Pow256(n: nat): (r: nat)
    ensures r >= 1
  {
    if n == 0 then 1 else 256 * Pow256(n - 1)
  }

  lemma Pow256Values()
    ensures Pow256(4) == 0x1_0000_0000 && Pow256(8) == 0x1_0000_0000_0000_0000
  {
    assert Pow256(2) == 0x10000;
    assert Pow256(4) == 0x1_0000_0000;
    assert Pow256(6) == 0x1_0000_0000_0000;
  }

  /** Writing then reading an n-byte field gives the residue back. */
  lemma {:induction false} LeRoundTrip(v: int, n: nat)
    ensures Rd(Le(v, n)) == v % Pow256(n)
    decreases n
  {
    if n == 0 {
    } else {
      var s := Le(v, n);
      LeRoundTrip(v / 256, n - 1);
      assert s[1..] == Le(v / 256, n - 1);
      ModStep(v, Pow256(n - 1));
    }
  }

  lemma ModStep(v: int, p: nat)
    requires p >= 1
    ensures v % (256 * p) == v % 256 + 256 * (v / 256 % p)
  {
    var q, r := v / 256, v % 256;
    var a, b := q / p, q % p;
    assert v == 256 * q + r && q == p * a + b;
    var m := 256 * p;
    assert v == m * a + (256 * b + r) by {
      assert 256 * (p * a) == m * a;
    }
    assert 0 <= 256 * b + r < m;
    ModUnique(v, m, a, 256 * b + r);
  }

  lemma ModUnique(v: int, m: nat, a: int, r: int)
    requires m > 0 && v == m * a + r && 0 <= r < m
    ensures v % m == r && v / m == a
  {
    MulSteps(m, a - v / m);
    assert m * (a - v / m) == v % m - r;
  }

  lemma MulSteps(m: int, k: int)
    requires m >= 0
    ensures k >= 1 ==> m * k >= m
    ensures k <= -1 ==> m * k <= -m
  {
  }

  lemma {:induction false} RdBound(s: seq<byte>)
    ensures Rd(s) < Pow256(|s|)
  {
    if |s| > 0 {
      RdBound(s[1..]);
    }
  }

  lemma {:induction false} RdInjective(a: seq<byte>, b: seq<byte>)
    requires |a| == |b|
    ensures Rd(a) == Rd(b) <==> a == b
    decreases |a|
  {
    if |a| > 0 {
      RdInjective(a[1..], b[1..]);
      assert a == [a[0]] + a[1..] && b == [b[0]] + b[1..];
    }
  }

  function Rd32(s: seq<byte>): (r: int)
    requires |s| == 4
    ensures 0 <= r < 0x1_0000_0000
  {
    RdBound(s);
    Pow256Values();
    Rd(s)
  }

  function Rd64(s: seq<byte>): (r: u64)
    requires |s| == 8
  {
    RdBound(s);
    Pow256Values();
    Rd(s)
  }

  /** Sign extension of a 32-bit pattern. */
  function Sx32(v: int): int
    requires 0 <= v < 0x1_0000_0000
  {
    if v < 0x8000_0000 then v else v - 0x1_0000_0000
  }

  lemma Le64RoundTrip(v: u64)
    ensures Rd64(Le(v, 8)) == v
  {
    LeRoundTrip(v, 8);
    Pow256Values();
  }

  /** A signed displacement survives encoding when it fits 31 bits. */
  lemma DispRoundTrip(d: int)
    requires -0x8000_0000 <= d < 0x8000_0000
    ensures Sx32(Rd32(Le(d, 4))) == d
  {
    LeRoundTrip(d, 4);
    Pow256Values();
  }
}

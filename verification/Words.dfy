/** Fixed-width unsigned integers and the C operators on them that Dafny's own operators do not match. */
module Words {

  const TWO_8 := 0x100
  const TWO_16 := 0x1_0000
  const TWO_24 := 0x100_0000
  const TWO_31 := 0x8000_0000
  const TWO_32 := 0x1_0000_0000
  const TWO_64 := 0x1_0000_0000_0000_0000

  type uint8 = x: int | 0 <= x < TWO_8
  type uint16 = x: int | 0 <= x < TWO_16
  type uint32 = x: int | 0 <= x < TWO_32

  /** The largest `uint32_t`, which the route calculation uses as "unreached". */
  const UINT32_MAX: uint32 := 0xFFFF_FFFF

  /** Conversion of any integer to `uint32_t`. */
  function U32(x: int): uint32 {
    x % TWO_32
  }

  /** Conversion of a `uint32_t` to `int32_t`. */
  function I32(x: uint32): int {
    if x < TWO_31 then x else x - TWO_32
  }

  /** C's `%`, which truncates toward zero. */
  function TruncRem(x: int, n: int): int
    requires n > 0
  {
    if x >= 0 then x % n else -((-x) % n)
  }

  /** The bitwise `&` of two addresses. */
  function And32(x: uint32, y: uint32): uint32 {
    AndBits(x, y, 32)
  }

  /** The bitwise `&` of the `n` low bits. */
  function AndBits(x: nat, y: nat, n: nat): (r: nat)
    ensures r <= x
  {
    if n == 0 then 0 else 2 * AndBits(x / 2, y / 2, n - 1) + (if x % 2 == 1 && y % 2 == 1 then 1 else 0)
  }

  function Pow2(k: nat): (p: nat)
    ensures p > 0
  {
    if k == 0 then 1 else 2 * Pow2(k - 1)
  }

  lemma {:induction false} Pow2Monotone(k: nat, n: nat)
    requires k <= n
    ensures Pow2(k) <= Pow2(n)
  {
    if k < n {
      Pow2Monotone(k, n - 1);
    }
  }

  lemma AllOf32()
    ensures Pow2(32) == TWO_32
  {
    assert Pow2(8) == TWO_8;
    assert Pow2(16) == TWO_16;
    assert Pow2(24) == TWO_24;
  }

  lemma {:induction false} AndOnes(x: nat, n: nat)
    requires x < Pow2(n)
    ensures AndBits(x, Pow2(n) - 1, n) == x
  {
    if n > 0 {
      AndOnes(x / 2, n - 1);
      assert (2 * Pow2(n - 1) - 1) / 2 == Pow2(n - 1) - 1 && (2 * Pow2(n - 1) - 1) % 2 == 1;
    }
  }

  lemma Twice(a: nat, q: nat)
    ensures 2 * a * q == 2 * (a * q)
  {
  }

  /** A mask of all but the `k` low bits leaves the largest multiple of 2^k that is no larger. */
  lemma {:induction false} AndPrefix(x: nat, n: nat, k: nat) returns (q: nat)
    requires k <= n && x < Pow2(n)
    ensures Pow2(k) <= Pow2(n)
    ensures AndBits(x, Pow2(n) - Pow2(k), n) == Pow2(k) * q && x - Pow2(k) < Pow2(k) * q <= x
  {
    Pow2Monotone(k, n);
    if k == 0 {
      AndOnes(x, n);
      q := x;
    } else {
      q := AndPrefix(x / 2, n - 1, k - 1);
      var p, a, b := Pow2(k - 1) * q, Pow2(n - 1), Pow2(k - 1);
      Twice(b, q);
      assert (2 * a - 2 * b) / 2 == a - b && (2 * a - 2 * b) % 2 == 0;
      assert AndBits(x, Pow2(n) - Pow2(k), n) == 2 * p;
      assert x / 2 - b < p <= x / 2;
      hide Pow2, AndBits;
      assert x - 2 * b < 2 * p <= x;
    }
  }

  lemma RemainderIs(p: nat, q: nat, d: nat)
    requires p > 0 && d < p
    ensures (p * q + d) % p == d
  {
    var x := p * q + d;
    var n, m := x / p, x % p;
    assert x == n * p + m;
    if q > n {
      MulMonotone(1, q - n, p);
    } else if q < n {
      MulMonotone(1, n - q, p);
    }
  }

  /** Cutting an address to a prefix. */
  lemma AndMask(x: uint32, k: nat)
    requires k <= 32
    ensures Pow2(k) <= TWO_32
    ensures var mask := TWO_32 - Pow2(k); 0 <= mask < TWO_32 && And32(x, mask) == x - x % Pow2(k)
  {
    AllOf32();
    hide Pow2, AndBits;
    var q := AndPrefix(x, 32, k);
    RemainderIs(Pow2(k), q, x - Pow2(k) * q);
  }

  lemma U32Add(x: int, y: int)
    ensures U32(U32(x) + y) == U32(x + y)
  {
  }

  lemma U32AddBoth(x: int, y: int)
    ensures U32(U32(x) + U32(y)) == U32(x + y)
  {
  }

  /** Reading a 32-bit register as signed gives back any number that fits. */
  lemma I32Exact(x: int)
    requires -TWO_31 <= x < TWO_31
    ensures I32(U32(x)) == x
  {
  }

  lemma MulMonotone(x: int, y: int, z: int)
    requires x <= y && z >= 0
    ensures x * z <= y * z
  {
  }
}

/**
 The Fletcher checksum of link state advertisements (src/utils.hpp; RFC 2328, section 12.1.7).

 `C0` and `C1` are the two running sums as mathematics; the method `Fletcher16` is the C++ loop over
 32-bit registers. The main result says exactly when writing the two returned bytes into the
 checksum field makes both sums vanish modulo 255.
 */
module Fletcher {
  import opened Words

  /** The longest data for which the second sum cannot exceed 32 bits. */
  const MAX_EXACT_LENGTH := 5803

  /** The sum of all bytes. */
  function C0(s: seq<uint8>): nat {
    if s == [] then 0 else C0(s[..|s| - 1]) + s[|s| - 1]
  }

  /** The sum of all running sums: byte `i` is counted `|s| - i` times. */
  function C1(s: seq<uint8>): nat {
    if s == [] then 0 else C1(s[..|s| - 1]) + C0(s)
  }

  /** The data as the loop sees it, with the checksum field read as zero. */
  function Blank(data: seq<uint8>, off: nat): (r: seq<uint8>)
    ensures |r| == |data|
  {
    seq(|data|, i requires 0 <= i < |data| => if i == off || i == off + 1 then 0 else data[i])
  }

  /** The receiver's test: both sums over the whole data are 0 modulo 255. */
  predicate Verifies(data: seq<uint8>) {
    C0(data) % 255 == 0 && C1(data) % 255 == 0
  }

  /** The bytes `x` and `y` written at `off` and `off + 1`. */
  function Stamped(data: seq<uint8>, off: nat, x: uint8, y: uint8): (r: seq<uint8>)
    requires off + 1 < |data|
    ensures |r| == |data|
  {
    data[off := x][off + 1 := y]
  }

  /** The signed arithmetic after the loop, on the reduced sums and `mul`. */
  function HighByte(c0: nat, c1: nat, mul: uint32): (x: uint8)
  {
    var d := I32(U32(mul - c0 - c1));
    var r := TruncRem(if d < 0 then d - 1 else d, 255);
    (if r == 0 then 255 else r) % TWO_8
  }

  function LowByte(c1: nat, mul: uint32): (y: uint8)
  {
    var d := I32(U32(c1 - mul - 1));
    var r := TruncRem(if d >= 0 then d + 1 else d, 255);
    (if r == 0 then 255 else r) % TWO_8
  }

  function Mul(data: seq<uint8>, off: nat): uint32 {
    U32((|data| - off) * (U32(C0(Blank(data, off))) % 255))
  }

  function StampHigh(data: seq<uint8>, off: nat): uint8 {
    HighByte(U32(C0(Blank(data, off))) % 255, U32(C1(Blank(data, off))) % 255, Mul(data, off))
  }

  function StampLow(data: seq<uint8>, off: nat): uint8 {
    LowByte(U32(C1(Blank(data, off))) % 255, Mul(data, off))
  }

  /** The loop of `fletcher16`: both 32-bit sums, skipping the checksum field. */
  method RunningSums(data: seq<uint8>, off: nat) returns (c0: uint32, c1: uint32)
    ensures c0 == U32(C0(Blank(data, off))) && c1 == U32(C1(Blank(data, off)))
  {
    c0, c1 := 0, 0;
    ghost var z := Blank(data, off);
    for index := 0 to |data|
      invariant c0 == U32(C0(z[..index])) && c1 == U32(C1(z[..index]))
    {
      StepWraps(z, index);
      if index == off || index == off + 1 {
        c1 := U32(c1 + c0);
      } else {
        c0 := U32(c0 + data[index]);
        c1 := U32(c1 + c0);
      }
    }
    assert z[..|data|] == z;
  }

  /** `fletcher16`: the two check bytes, high byte first, for data of any length. */
  method Fletcher16(data: seq<uint8>, off: nat) returns (checksum: uint16)
    ensures checksum == StampHigh(data, off) * TWO_8 + StampLow(data, off)
  {
    var c0, c1 := RunningSums(data, off);
    c0 := c0 % 255;
    c1 := c1 % 255;
    var mul: uint32 := U32((|data| - off) * c0);
    assert mul == Mul(data, off);
    checksum := CheckBytes(c0, c1, mul);
  }

  /** The rest of `fletcher16`: the adjustments before and after the truncating remainders. */
  method CheckBytes(c0: uint32, c1: uint32, mul: uint32) returns (checksum: uint16)
    ensures checksum == HighByte(c0, c1, mul) * TWO_8 + LowByte(c1, mul)
  {
    var x := I32(U32(mul - c0 - c1));
    var y := I32(U32(c1 - mul - 1));
    if y >= 0 {
      y := y + 1;
    }
    if x < 0 {
      x := x - 1;
    }
    x := TruncRem(x, 255);
    y := TruncRem(y, 255);
    if x == 0 {
      x := 255;
    }
    if y == 0 {
      y := 255;
    }
    checksum := (x % TWO_8) * TWO_8 + y % TWO_8;
  }

  // ----- The sums as polynomials in the data

  lemma {:induction false} SumsBounded(s: seq<uint8>)
    ensures C0(s) <= 255 * |s|
    ensures 2 * C1(s) <= 255 * (|s| * (|s| + 1))
  {
    if s != [] {
      var n := |s| - 1;
      SumsBounded(s[..n]);
      assert (n + 1) * (n + 2) == n * (n + 1) + 2 * (n + 1);
    }
  }

  /** No 32-bit sum wraps up to `MAX_EXACT_LENGTH` bytes. */
  lemma {:induction false} NoWrap(s: seq<uint8>)
    requires |s| <= MAX_EXACT_LENGTH
    ensures U32(C0(s)) == C0(s) && U32(C1(s)) == C1(s)
  {
    SumsBounded(s);
    var n := |s|;
    MulMonotone(n, MAX_EXACT_LENGTH, n + 1);
  }

  /** Changing one byte moves the first sum by the difference and the second by its weight times that. */
  lemma {:induction false} SumsUpdate(s: seq<uint8>, i: nat, b: uint8)
    requires i < |s|
    ensures C0(s[i := b]) == C0(s) + (b - s[i])
    ensures C1(s[i := b]) == C1(s) + (|s| - i) * (b - s[i])
  {
    var n, t := |s| - 1, s[i := b];
    if i == n {
      assert t[..n] == s[..n];
    } else {
      assert t[..n] == s[..n][i := b];
      SumsUpdate(s[..n], i, b);
      assert (n + 1 - i) * (b - s[i]) == (n - i) * (b - s[i]) + (b - s[i]);
    }
  }

  lemma SumsStep(s: seq<uint8>, i: nat)
    requires i < |s|
    ensures C0(s[..i + 1]) == C0(s[..i]) + s[i]
    ensures C1(s[..i + 1]) == C1(s[..i]) + C0(s[..i]) + s[i]
  {
    assert s[..i + 1][..i] == s[..i];
  }

  /** The sums of a concatenation: the first part counts once more for every byte of the second. */
  lemma {:induction false} SumsAppend(s: seq<uint8>, t: seq<uint8>)
    ensures C0(s + t) == C0(s) + C0(t)
    ensures C1(s + t) == C1(s) + |t| * C0(s) + C1(t)
  {
    if t == [] {
      assert s + t == s;
    } else {
      var n := |t| - 1;
      SumsAppend(s, t[..n]);
      assert (s + t)[..|s + t| - 1] == s + t[..n];
      assert (n + 1) * C0(s) == n * C0(s) + C0(s);
    }
  }

  lemma StepWraps(s: seq<uint8>, i: nat)
    requires i < |s|
    ensures U32(C0(s[..i + 1])) == U32(U32(C0(s[..i])) + s[i])
    ensures U32(C1(s[..i + 1])) == U32(U32(C1(s[..i])) + U32(C0(s[..i + 1])))
  {
    SumsStep(s, i);
    U32Add(C0(s[..i]), s[i]);
    U32AddBoth(C1(s[..i]), C0(s[..i + 1]));
  }

  lemma SumsOfStamped(data: seq<uint8>, off: nat, x: uint8, y: uint8)
    requires off + 1 < |data|
    ensures C0(Stamped(data, off, x, y)) == C0(Blank(data, off)) + x + y
    ensures C1(Stamped(data, off, x, y)) == C1(Blank(data, off)) + (|data| - off) * x + (|data| - off - 1) * y
  {
    var z := Blank(data, off);
    SumsUpdate(z, off, x);
    var z1: seq<uint8> := z[off := x];
    SumsUpdate(z1, off + 1, y);
    var z2: seq<uint8> := z1[off + 1 := y];
    assert z2 == Stamped(data, off, x, y);
  }

  // ----- When the check bytes are right

  /** The reduced sums on which the high byte comes out one too small. */
  predicate HighByteFails(data: seq<uint8>, off: nat) {
    var z := Blank(data, off);
    C0(z) % 255 == 0 && C1(z) % 255 == 254
  }

  /** The reduced sums on which the low byte comes out one too small. */
  predicate LowByteFails(data: seq<uint8>, off: nat) {
    var z := Blank(data, off);
    var d := C1(z) % 255 - (|data| - off) * (C0(z) % 255);
    d <= -254 && d % 255 == 1
  }

  /** The high byte is congruent to `mul - c0 - c1`, except that in the failing case it is one less. */
  lemma HighByteResidue(c0: nat, c1: nat, mul: uint32) returns (k: int)
    requires c0 < 255 && c1 < 255 && 2 * c0 <= mul < TWO_31
    ensures HighByte(c0, c1, mul) != 0
    ensures HighByte(c0, c1, mul) == mul - c0 - c1 + 255 * k - (if c0 == 0 && c1 == 254 && mul == 0 then 1 else 0)
  {
    var d := mul - c0 - c1;
    I32Exact(d);
    if d >= 0 {
      k := (if d % 255 == 0 then 1 else 0) - d / 255;
    } else {
      k := if d == -254 then 2 else 1;
    }
  }

  lemma LowByteResidue(c1: nat, mul: uint32) returns (k: int)
    requires c1 < 255 && mul < TWO_31
    ensures LowByte(c1, mul) != 0
    ensures LowByte(c1, mul) == c1 - mul + 255 * k - (if c1 - mul <= -254 && (c1 - mul) % 255 == 1 then 1 else 0)
  {
    var d := c1 - mul;
    I32Exact(d - 1);
    if d >= 1 {
      k := 0;
    } else {
      k := NegativeResidue(d);
    }
  }

  /** The byte that a sum `d <= 0` becomes after `d - 1` has been reduced. */
  lemma NegativeResidue(d: int) returns (k: int)
    requires d <= 0
    ensures var r := TruncRem(d - 1, 255);
            var byte := (if r == 0 then 255 else r) % TWO_8;
            byte != 0 && byte == d + 255 * k - (if d <= -254 && d % 255 == 1 then 1 else 0)
  {
    var e := 1 - d;
    var q, m := e / 255, e % 255;
    k := q + 1;
    assert d == 1 - 255 * q - m;
    if m == 0 {
      assert d % 255 == 1;
    } else {
      assert d % 255 == (256 - m) % 255;
    }
  }

  lemma MulFits(data: seq<uint8>, off: nat)
    requires off + 1 < |data| <= MAX_EXACT_LENGTH
    ensures var c0 := C0(Blank(data, off)) % 255;
            Mul(data, off) == (|data| - off) * c0 && 2 * c0 <= Mul(data, off) < TWO_31
            && (Mul(data, off) == 0 <==> c0 == 0)
  {
    NoWrap(Blank(data, off));
    var c0, w := C0(Blank(data, off)) % 255, |data| - off;
    MulMonotone(2, w, c0);
    MulMonotone(w, MAX_EXACT_LENGTH, c0);
  }

  /**
   The check bytes are never zero, and stamping them makes the data verify exactly when neither byte
   falls into its one failing case.
   */
  lemma StampVerifiesExactly(data: seq<uint8>, off: nat)
    requires off + 1 < |data| <= MAX_EXACT_LENGTH
    ensures StampHigh(data, off) != 0 && StampLow(data, off) != 0
    ensures Verifies(Stamped(data, off, StampHigh(data, off), StampLow(data, off)))
            <==> !HighByteFails(data, off) && !LowByteFails(data, off)
  {
    var z := Blank(data, off);
    NoWrap(z);
    MulFits(data, off);
    var c0, c1, mul := C0(z) % 255, C1(z) % 255, Mul(data, off);
    var i := HighByteResidue(c0, c1, mul);
    var j := LowByteResidue(c1, mul);
    SumsOfStamped(data, off, StampHigh(data, off), StampLow(data, off));
    StampResidues(C0(z), C1(z), |data| - off, StampHigh(data, off), StampLow(data, off), i, j,
                  if c0 == 0 && c1 == 254 then 1 else 0,
                  if c1 - mul <= -254 && (c1 - mul) % 255 == 1 then 1 else 0);
  }

  lemma StampResidues(s0: nat, s1: nat, w: int, x: int, y: int, i: int, j: int, fx: int, fy: int)
    requires x == w * (s0 % 255) - s0 % 255 - s1 % 255 + 255 * i - fx
    requires y == s1 % 255 - w * (s0 % 255) + 255 * j - fy
    requires 0 <= fx <= 1 && 0 <= fy <= 1
    ensures (s0 + x + y) % 255 == 0 && (s1 + w * x + (w - 1) * y) % 255 == 0 <==> fx == 0 && fy == 0
  {
    FirstSumCancels(s0, x + y, i + j, fx + fy);
    if fx + fy == 0 {
      SecondSumCancels(s0, s1, w, x, y, i + j, j);
    }
  }

  /** With both bytes right the first sum cancels; with one of them one too small it does not. */
  lemma FirstSumCancels(s0: nat, xy: int, k: int, fails: int)
    requires xy == 255 * k - s0 % 255 - fails
    requires 0 <= fails <= 2
    ensures (s0 + xy) % 255 == 0 <==> fails == 0
  {
    assert s0 + xy == 255 * (s0 / 255 + k) - fails;
  }

  lemma SecondSumCancels(s0: nat, s1: nat, w: int, x: int, y: int, k: int, j: int)
    requires x + y == 255 * k - s0 % 255
    requires y == s1 % 255 - w * (s0 % 255) + 255 * j
    ensures (s1 + w * x + (w - 1) * y) % 255 == 0
  {
    var r := s0 % 255;
    assert w * x + (w - 1) * y == w * (x + y) - y;
    assert w * (x + y) == w * (255 * k) - w * r;
    assert w * (255 * k) == 255 * (w * k);
    var n := s1 / 255 + w * k - j;
    assert s1 + w * x + (w - 1) * y == 255 * n;
  }

  /** Each failing case occurs, already on four bytes: this datum's stamped form is rejected. */
  lemma HighByteFailureExample(d: seq<uint8>)
    requires |d| == 4 && d[0] == 254 && d[1] == 1
    ensures HighByteFails(d, 2) && !Verifies(Stamped(d, 2, StampHigh(d, 2), StampLow(d, 2)))
  {
    hide C0, C1, Verifies, Stamped, StampHigh, StampLow;
    var z := Blank(d, 2);
    SumsOfFour(z);
    assert C0(z) == 255 && C1(z) == 4 * 254 + 3;
    StampVerifiesExactly(d, 2);
  }

  lemma LowByteFailureExample(d: seq<uint8>)
    requires |d| == 4 && d[0] == 128 && d[1] == 0
    ensures LowByteFails(d, 2) && !Verifies(Stamped(d, 2, StampHigh(d, 2), StampLow(d, 2)))
  {
    hide C0, C1, Verifies, Stamped, StampHigh, StampLow;
    var z := Blank(d, 2);
    SumsOfFour(z);
    assert C0(z) == 128 && C1(z) == 512;
    assert 512 % 255 - 2 * (128 % 255) == -254;
    StampVerifiesExactly(d, 2);
  }

  lemma SumsOfFour(s: seq<uint8>)
    requires |s| == 4
    ensures var a: int, b: int, c: int, d: int := s[0], s[1], s[2], s[3];
            C0(s) == a + b + c + d && C1(s) == 4 * a + 3 * b + 2 * c + d
  {
    SumsStep(s, 0);
    SumsStep(s, 1);
    SumsStep(s, 2);
    SumsStep(s, 3);
    assert s[..4] == s;
  }
}

/** The wide and saturating arithmetic of arith.h, with every truncation written out. */
module Arith {
  const B: int := 0x1_0000_0000
  const B64: int := 0x1_0000_0000_0000_0000
  const H64: int := 0x8000_0000_0000_0000

  function U32(x: nat): nat { x % B }
  function U64(x: int): nat { x % B64 }

  /** A 64-bit pattern read as a signed number. */
  function S64(u: nat): int {
    if u < H64 then u else u - B64
  }

  // ---------------------------------------------------------------- high products

  lemma MulMono(a: int, c: int, b: int)
    requires a <= c && b >= 0
    ensures a * b <= c * b
  {
    assert (c - a) * b >= 0;
  }

  /** The product of two numbers below a bound. */
  lemma Product(a: int, b: int, m: int)
    requires 0 <= a < m && 0 <= b < m
    ensures 0 <= a * b <= (m - 1) * (m - 1)
  {
    MulMono(a, m - 1, b);
    MulMono(b, m - 1, m - 1);
    MulMono(0, a, b);
  }

  lemma Expand(a1: nat, a0: nat, b1: nat, b0: nat)
    ensures (a1 * B + a0) * (b1 * B + b0) == a1 * b1 * B64 + (a1 * b0 + a0 * b1) * B + a0 * b0
  {
    calc {
      (a1 * B + a0) * (b1 * B + b0);
      a1 * B * (b1 * B) + a1 * B * b0 + a0 * (b1 * B) + a0 * b0;
    }
    assert a1 * B * (b1 * B) == a1 * b1 * B64;
  }

  /** mulhu: the high word of the product, by 32-bit halves that never overflow. */
  method MulHU(a: nat, b: nat) returns (r: nat)
    requires a < B64 && b < B64
    ensures r == a * b / B64
  {
    var a0, a1 := U32(a), a / B;
    var b0, b1 := U32(b), b / B;
    Product(a0, b0, B);
    Product(a1, b0, B);
    Product(a0, b1, B);
    Product(a1, b1, B);
    var p00, p10, p01, p11 := a0 * b0, a1 * b0, a0 * b1, a1 * b1;
    Expand(a1, a0, b1, b0);
    Product(a, b, B64);
    r := Combine(p00, p10, p01, p11);
    assert a * b == p11 * B64 + (p10 + p01) * B + p00;
  }

  /** The sums and carries of mulhu over the four partial products. */
  method Combine(p00: int, p10: int, p01: int, p11: int) returns (r: nat)
    requires 0 <= p00 <= (B - 1) * (B - 1) && 0 <= p10 <= (B - 1) * (B - 1)
    requires 0 <= p01 <= (B - 1) * (B - 1) && 0 <= p11 <= (B - 1) * (B - 1)
    ensures r == (p11 * B64 + (p10 + p01) * B + p00) / B64
  {
    hide U64, U32;
    Small(p10 + p00 / B);
    var t := U64(p10 + p00 / B);
    ghost var t1 := t;
    Halves(t);
    var y1 := U32(t);
    var y2 := t / B;
    Small(p01 + y1);
    t := U64(p01 + y1);
    ghost var t2 := t;
    Halves(t);
    Small(p11 + y2 + t / B);
    t := U64(p11 + y2 + t / B);
    Halves(t);
    y2 := U32(t);
    var y3 := U32(t / B);
    Carries(p00, p10, p01, p11, t1, t2, t);
    r := y3 * B + y2;
  }

  lemma Small(x: int)
    requires 0 <= x < B64
    ensures U64(x) == x
  {
  }

  lemma Halves(t: nat)
    requires t < B64
    ensures U32(t) == t % B && 0 <= t / B < B && U32(t / B) == t / B && t == t / B * B + t % B
  {
  }

  lemma Carries(p00: nat, p10: nat, p01: nat, p11: nat, t1: nat, t2: nat, t3: nat)
    requires t1 == p10 + p00 / B && t2 == p01 + t1 % B && t3 == p11 + t1 / B + t2 / B
    ensures t3 == (p11 * B64 + (p10 + p01) * B + p00) / B64
  {
    var low := t2 % B * B + p00 % B;
    assert p11 * B64 + (p10 + p01) * B + p00 == t3 * B64 + low;
  }

  function Abs(a: int): nat {
    if a < 0 then -a else a
  }

  /** The complement of the high word, plus one if the low word is zero, is the high word
      of the negated product. */
  lemma NegatedHigh(p: int)
    requires p >= 0
    ensures (-p) / B64 == -(p / B64) - 1 + if U64(-p) == 0 then 1 else 0
    ensures U64(-p) == 0 <==> p % B64 == 0
  {
  }

  lemma SignedProduct(a: int, b: int)
    ensures a * b == if (a < 0) != (b < 0) then -(Abs(a) * Abs(b)) else Abs(a) * Abs(b)
  {
    if a < 0 && b < 0 {
      assert a * b == (-a) * (-b);
    } else if a < 0 {
      assert a * b == -((-a) * b);
    } else if b < 0 {
      assert a * b == -(a * (-b));
    }
  }

  lemma AbsBound(a: int, b: int)
    requires -H64 <= a < H64 && 0 <= Abs(b) < B64
    ensures Abs(a) * Abs(b) / B64 < H64 && Abs(a) * Abs(b) >= 0
  {
    MulMono(Abs(a), H64, Abs(b));
    MulMono(0, Abs(a), Abs(b));
  }

  /** The low word of a product depends on the low words of the factors only. */
  lemma LowProduct(a: int, b: int)
    ensures U64(U64(a) * U64(b)) == U64(a * b)
  {
    var k, l, u, v := a / B64, b / B64, U64(a), U64(b);
    Distribute(k, u, l, v, B64);
    DropHigh(k * l * B64 + k * v + u * l, u * v);
  }

  lemma Distribute(k: int, u: int, l: int, v: int, m: int)
    ensures (k * m + u) * (l * m + v) == (k * l * m + k * v + u * l) * m + u * v
  {
    calc {
      (k * m + u) * (l * m + v);
      (k * m) * (l * m) + (k * m) * v + u * (l * m) + u * v;
      { assert (k * m) * (l * m) == (k * l * m) * m; assert (k * m) * v == (k * v) * m; assert u * (l * m) == (u * l) * m; }
      (k * l * m) * m + (k * v) * m + (u * l) * m + u * v;
    }
  }

  lemma DropHigh(h: int, w: int)
    ensures U64(h * B64 + w) == U64(w)
  {
  }

  /** The value that mulh and mulhsu return for the high word `res` of the product of the
      absolute values. */
  function Signed(negate: bool, res: nat, zero: bool): int {
    if negate then S64(U64(B64 - 1 - res + if zero then 1 else 0)) else S64(res)
  }

  lemma SignedHigh(p: int, negate: bool)
    requires p >= 0 && p / B64 < H64
    ensures Signed(negate, p / B64, U64(if negate then 0 - p else p) == 0) == (if negate then 0 - p else p) / B64
  {
    NegatedHigh(p);
  }

  lemma AbsWord(a: int)
    requires -B64 < a < B64
    ensures U64(if a < 0 then -a else a) == Abs(a)
  {
  }

  /** mulh: the floor of the exact signed product over 2^64. */
  method MulH(a: int, b: int) returns (r: int)
    requires -H64 <= a < H64 && -H64 <= b < H64
    ensures r == a * b / B64
  {
    hide U64, Signed, S64;
    var negate := (a < 0) != (b < 0);
    AbsWord(a);
    AbsWord(b);
    var res := MulHU(U64(if a < 0 then -a else a), U64(if b < 0 then -b else b));
    SignedProduct(a, b);
    AbsBound(a, b);
    SignedHigh(Abs(a) * Abs(b), negate);
    LowProduct(a, b);
    r := Signed(negate, res, U64(U64(a) * U64(b)) == 0);
  }

  /** mulhsu: the same with an unsigned second factor. */
  method MulHSU(a: int, b: nat) returns (r: int)
    requires -H64 <= a < H64 && b < B64
    ensures r == a * b / B64
  {
    hide U64, Signed, S64;
    var negate := a < 0;
    AbsWord(a);
    AbsWord(b);
    var res := MulHU(U64(if a < 0 then -a else a), b);
    SignedProduct(a, b);
    AbsBound(a, b);
    SignedHigh(Abs(a) * Abs(b), negate);
    LowProduct(a, b);
    r := Signed(negate, res, U64(U64(a) * U64(b)) == 0);
  }

  // ---------------------------------------------------------------- saturation

  /** A number that fits the signed type with `2 * half` values. */
  predicate Fits(x: int, half: int) {
    -half <= x < half
  }

  function Clamp(x: int, half: int): int
    requires half > 0
  {
    if x < -half then -half else if x >= half then half - 1 else x
  }

  /** Conversions between a signed number and its pattern. */
  function ToU(x: int, half: int): int
    requires half > 0
  {
    x % (2 * half)
  }

  function ToS(u: int, half: int): int {
    if u < half then u else u - 2 * half
  }

  predicate SignBit(u: int, half: int) {
    u >= half
  }

  lemma Patterns(x: int, half: int)
    requires half > 0 && Fits(x, half)
    ensures ToU(x, half) == (if x < 0 then x + 2 * half else x) && ToS(ToU(x, half), half) == x
    ensures SignBit(ToU(x, half), half) <==> x < 0
  {
    ModOnce(x, 2 * half);
  }

  lemma ModOnce(x: int, m: int)
    requires m > 0 && -m <= x < 2 * m
    ensures x % m == if x < 0 then x + m else if x < m then x else x - m
  {
    var q := x / m;
    assert x == q * m + x % m;
    assert q < -1 ==> q * m <= -2 * m;
    assert q > 1 ==> q * m >= 2 * m;
  }

  /** The sign bit shifted down, plus the largest value: the bound on the side of `ux`. */
  function Saturated(ux: int, half: int): int
    requires half > 0
  {
    (if SignBit(ux, half) then 1 else 0) + (half - 1)
  }

  /** sat_add of two operands; of the tested bitwise expressions only the sign bit matters. */
  method SatAdd(x: int, y: int, half: int) returns (r: int, sat: bool)
    requires half > 0 && Fits(x, half) && Fits(y, half)
    ensures r == Clamp(x + y, half) && (sat <==> !Fits(x + y, half))
  {
    var ux, uy := ToU(x, half), ToU(y, half);
    var res := (ux + uy) % (2 * half);
    sat := false;
    Patterns(x, half);
    Patterns(y, half);
    ModOnce(ux + uy, 2 * half);
    ux := Saturated(ux, half);
    if !((SignBit(ux, half) != SignBit(uy, half)) || !(SignBit(uy, half) != SignBit(res, half))) {
      res := ux;
      sat := true;
    }
    r := ToS(res, half);
  }

  /** sat_add of three operands: an operand of the sign that the other two lack goes
      first, so that no early saturation hides it. */
  method SatAdd3(x: int, y: int, z: int, half: int) returns (r: int, sat: bool)
    requires half > 0 && Fits(x, half) && Fits(y, half) && Fits(z, half)
    ensures r == Clamp(x + y + z, half) && (sat <==> !Fits(x + y + z, half))
  {
    var a, b := y, z;
    if (y < 0) != (z < 0) && (x < 0) != (z < 0) {
      a, b := z, y;
    }
    var sat1, sat2;
    r, sat1 := SatAdd(x, a, half);
    r, sat2 := SatAdd(r, b, half);
    sat := sat1 || sat2;
  }

  /** sat_sub. */
  method SatSub(x: int, y: int, half: int) returns (r: int, sat: bool)
    requires half > 0 && Fits(x, half) && Fits(y, half)
    ensures r == Clamp(x - y, half) && (sat <==> !Fits(x - y, half))
  {
    var ux, uy := ToU(x, half), ToU(y, half);
    var res := (ux - uy) % (2 * half);
    sat := false;
    Patterns(x, half);
    Patterns(y, half);
    ModOnce(ux - uy, 2 * half);
    ux := Saturated(ux, half);
    if SignBit(ux, half) != SignBit(uy, half) && SignBit(ux, half) != SignBit(res, half) {
      res := ux;
      sat := true;
    }
    r := ToS(res, half);
  }

  /** sat_addu and sat_subu: an unsigned result is clamped at the top or at zero. */
  method SatAddU(x: nat, y: nat, top: nat) returns (r: nat, sat: bool)
    requires x < top && y < top
    ensures r == (if x + y < top then x + y else top - 1) && (sat <==> x + y >= top)
  {
    ModOnce(x + y, top);
    r := (x + y) % top;
    sat := r < x;
    if sat {
      r := top - 1;
    }
  }

  method SatSubU(x: nat, y: nat, top: nat) returns (r: nat, sat: bool)
    requires x < top && y < top
    ensures r == (if x >= y then x - y else 0) && (sat <==> x < y)
  {
    ModOnce(x - y, top);
    r := (x - y) % top;
    sat := !(r <= x);
    if sat {
      r := 0;
    }
  }
}

/** Two's-complement machine integers, as mathematical integers in range.

    Both the C semantics and the x86-64 semantics of this project are written with these
    operations, so that "the compiled code computes the source value" means equality of integers.
 */
module Words {
  type I32 = x: int | -0x8000_0000 <= x <= 0x7fff_ffff
  type I64 = x: int | -0x8000_0000_0000_0000 <= x <= 0x7fff_ffff_ffff_ffff

  // Reduction modulo 2^32 and 2^64 into the signed range.
  function Wrap32(x: int): I32 {
    (x + 0x8000_0000) % 0x1_0000_0000 - 0x8000_0000
  }

  function Wrap64(x: int): I64 {
    (x + 0x8000_0000_0000_0000) % 0x1_0000_0000_0000_0000 - 0x8000_0000_0000_0000
  }

  function Pow2(k: nat): (p: int)
    ensures p >= 1
  {
    if k == 0 then 1 else 2 * Pow2(k - 1)
  }

  // C division and remainder truncate toward zero.
  function Abs(x: int): nat { if x < 0 then -x else x }

  function TruncDiv(a: int, b: int): int
    requires b != 0
  {
    var q := Abs(a) / Abs(b);
    if (a < 0) != (b < 0) then -q else q
  }

  function TruncMod(a: int, b: int): int
    requires b != 0
  {
    a - b * TruncDiv(a, b)
  }

  // The int operands on which the / and % of C (and idivl) are defined.
  predicate DivDefined(a: I32, b: I32) {
    b != 0 && !(a == -0x8000_0000 && b == -1)
  }

  function Sdiv(a: I32, b: I32): I32 {
    if b == 0 then 0 else Wrap32(TruncDiv(a, b))
  }

  function Smod(a: I32, b: I32): I32 {
    if b == 0 then 0 else Wrap32(TruncMod(a, b))
  }

  // Bitwise operators, digit by digit on the infinite two's-complement expansion:
  // x % 2 is the lowest digit, x / 2 (floor) the rest, and 0 and -1 are constant expansions.
  datatype BitOp = BAnd | BOr | BXor

  function Digit(op: BitOp, a: int, b: int): (d: int)
    requires 0 <= a <= 1 && 0 <= b <= 1
    ensures 0 <= d <= 1
  {
    match op
    case BAnd => if a == 1 && b == 1 then 1 else 0
    case BOr => if a == 1 || b == 1 then 1 else 0
    case BXor => if a != b then 1 else 0
  }

  function Bitwise(op: BitOp, a: int, b: int): int
    decreases Abs(a) + Abs(b)
  {
    if -1 <= a <= 0 && -1 <= b <= 0 then -Digit(op, -a, -b)
    else Digit(op, a % 2, b % 2) + 2 * Bitwise(op, a / 2, b / 2)
  }

  function Bits32(op: BitOp, a: I32, b: I32): I32 { Wrap32(Bitwise(op, a, b)) }

  function Mul(a: int, b: int): int { a * b }

  function Max(a: nat, b: nat): nat { if a >= b then a else b }

  function Shl(x: I32, k: nat): I32 { Wrap32(Mul(x, Pow2(k))) }

  // Arithmetic shift right: k floor halvings.
  function Sar(x: I32, k: nat): I32
    decreases k
  {
    if k == 0 then x else Sar(x / 2, k - 1)
  }

  // ----- facts about the identities the code generator exploits -----

  lemma {:induction false} BitwiseZero(op: BitOp, x: int)
    requires op.BOr? || op.BXor?
    ensures Bitwise(op, x, 0) == x
    decreases Abs(x)
  {
    if x < -1 || x > 0 {
      BitwiseZero(op, x / 2);
    }
  }

  lemma {:induction false} AndSelf(x: int)
    ensures Bitwise(BAnd, x, x) == x
    decreases Abs(x)
  {
    if x < -1 || x > 0 {
      AndSelf(x / 2);
    }
  }

  // Number of times x can be halved before it reaches 1.
  function Log2(x: int): nat {
    if x <= 1 then 0 else 1 + Log2(x / 2)
  }

  // The test imm > 0 && (imm & (imm - 1)) == 0 recognises exactly the powers of two.
  lemma {:induction false} PowerOfTwoTest(x: int)
    requires x > 0 && Bitwise(BAnd, x, x - 1) == 0
    ensures x == Pow2(Log2(x))
  {
    if x > 1 {
      if x % 2 == 0 {
        assert (x - 1) / 2 == x / 2 - 1;
        PowerOfTwoTest(x / 2);
      } else {
        assert (x - 1) / 2 == x / 2;
        AndSelf(x / 2);
        assert false;
      }
    }
  }

  // And it recognises all of them.
  lemma {:induction false} PowerOfTwoPasses(k: nat)
    ensures Pow2(k) > 0 && Bitwise(BAnd, Pow2(k), Pow2(k) - 1) == 0
  {
    if k > 0 {
      PowerOfTwoPasses(k - 1);
      assert (Pow2(k) - 1) / 2 == Pow2(k - 1) - 1 && (Pow2(k) - 1) % 2 == 1;
    }
  }

  lemma {:induction false} Log2Bound(x: int, n: nat)
    requires n >= 1 && x < Pow2(n)
    ensures Log2(x) < n
  {
    if x > 1 {
      Log2Bound(x / 2, n - 1);
    }
  }

  // A positive int has fewer than 31 halvings, so the count survives the masking by shl.
  lemma Log2Int(x: I32)
    ensures Log2(x) < 31
  {
    assert Pow2(8) == 256;
    assert Pow2(16) == 65536;
    assert Pow2(24) == 0x100_0000;
    Log2Bound(x, 31);
  }

  // ----- what these operations are -----

  // Digit i of the expansion.
  function Bit(x: int, i: nat): nat
    decreases i
  {
    if i == 0 then x % 2 else Bit(x / 2, i - 1)
  }

  lemma {:induction false} BitwiseDigits(op: BitOp, a: int, b: int, i: nat)
    ensures var x, y, z := Bit(a, i) == 1, Bit(b, i) == 1, Bit(Bitwise(op, a, b), i) == 1;
      z <==> match op case BAnd => x && y case BOr => x || y case BXor => x != y
    decreases i, Abs(a) + Abs(b)
  {
    if -1 <= a <= 0 && -1 <= b <= 0 {
      ConstantDigits(a, i);
      ConstantDigits(b, i);
      ConstantDigits(Bitwise(op, a, b), i);
    } else {
      var d, rest := Digit(op, a % 2, b % 2), Bitwise(op, a / 2, b / 2);
      assert (d + 2 * rest) % 2 == d && (d + 2 * rest) / 2 == rest;
      if i > 0 {
        BitwiseDigits(op, a / 2, b / 2, i - 1);
      }
    }
  }

  lemma {:induction false} ConstantDigits(x: int, i: nat)
    requires -1 <= x <= 0
    ensures Bit(x, i) == 0 - x
    decreases i
  {
    if i > 0 {
      ConstantDigits(x / 2, i - 1);
    }
  }

  // A shift to the right is a division that rounds down.
  lemma {:induction false} SarDivides(x: I32, k: nat)
    ensures Sar(x, k) == x / Pow2(k)
    decreases k
  {
    if k > 0 {
      SarDivides(x / 2, k - 1);
      DivTwice(x, Pow2(k - 1));
    }
  }

  lemma DivTwice(x: int, p: nat)
    requires p > 0
    ensures x / 2 / p == x / (2 * p)
  {
    var y := x / 2;
    var q, r := y / p, 2 * (y % p) + x % 2;
    assert y == p * q + y % p;
    assert x == (2 * p) * q + r && r < 2 * p;
    ModUnique(x, 2 * p, q, r);
    assert (2 * p) * (x / (2 * p) - q) == 0;
    MultipleBound(2 * p, x / (2 * p) - q);
  }

  // Division truncates: the remainder is smaller than the divisor and has the sign of the dividend.
  lemma TruncLaw(a: int, b: int)
    requires b != 0
    ensures a == b * TruncDiv(a, b) + TruncMod(a, b) && Abs(TruncMod(a, b)) < Abs(b)
    ensures TruncMod(a, b) != 0 ==> (TruncMod(a, b) < 0 <==> a < 0)
  {
    var x, y := Abs(a), Abs(b);
    var q := x / y;
    assert x == y * q + x % y;
    SignedProducts(b, q);
  }

  lemma SignedProducts(b: int, q: nat)
    ensures b * (0 - q) == 0 - b * q && Abs(b) * q == if b < 0 then 0 - b * q else b * q
  {
  }

  // ----- remainders -----

  lemma ModUnique(x: int, p: nat, q: int, r: nat)
    requires p > 0 && x == p * q + r && r < p
    ensures x % p == r
  {
    assert p * (x / p - q) == r - x % p;
    MultipleBound(p, x / p - q);
  }

  lemma MultipleBound(p: nat, d: int)
    ensures d >= 1 ==> p * d >= p
    ensures d <= -1 ==> p * d <= 0 - p
  {
  }
}

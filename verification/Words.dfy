/** Unsigned 32-bit words, and the bit operations the compiler and the machine perform on them.
    Words are integers in [0, 2^32), so that wrap-around is written out as a remainder. */
module Words {

  type Word = w: int | 0 <= w < 0x1_0000_0000
  type Byte = b: int | 0 <= b < 0x100

  function Pow2(n: nat): (p: nat)
    ensures p > 0
  {
    if n == 0 then 1 else 2 * Pow2(n - 1)
  }

  /** The conversion to uint32_t, for values of either sign. */
  function ToWord(x: int): Word {
    x % 0x1_0000_0000
  }

  /** The two's complement reading of a word. */
  function Signed(w: Word): (s: int)
    ensures -0x8000_0000 <= s < 0x8000_0000
  {
    if w < 0x8000_0000 then w else w - 0x1_0000_0000
  }

  /** The two's complement reading of the low 12 bits. */
  function SignExtend12(x: int): (s: int)
    ensures -2048 <= s < 2048
  {
    var low := x % 4096;
    if low < 2048 then low else low - 4096
  }

  /** The mask of the n least significant bits. */
  function LowerBitmask(n: nat): Word {
    if n == 0 then 0 else if n >= 32 then 0xFFFF_FFFF else MaskFits(n); Pow2(n) - 1
  }

  function Abs(x: int): nat { if x < 0 then -x else x }

  /** The quotient rounded toward zero. */
  function TruncatedQuotient(a: int, b: int): int
    requires b != 0
  {
    if (a < 0) == (b < 0) then Abs(a) / Abs(b) else -(Abs(a) / Abs(b))
  }

  datatype BitOp = And | Or | Xor

  function Bit(op: BitOp, a: nat, b: nat): (r: nat)
    ensures r < 2
  {
    match op
    case And => if a % 2 == 1 && b % 2 == 1 then 1 else 0
    case Or => if a % 2 == 1 || b % 2 == 1 then 1 else 0
    case Xor => if a % 2 != b % 2 then 1 else 0
  }

  /** The bit operation applied position by position. */
  function Bitwise(op: BitOp, a: nat, b: nat): nat
    decreases a + b
  {
    if a == 0 && b == 0 then 0 else Bit(op, a, b) + 2 * Bitwise(op, a / 2, b / 2)
  }

  function AndWord(a: Word, b: Word): Word { WordBitwise(And, a, b) }

  function OrWord(a: Word, b: Word): Word { WordBitwise(Or, a, b) }

  function XorWord(a: Word, b: Word): Word { WordBitwise(Xor, a, b) }

  function WordBitwise(op: BitOp, a: Word, b: Word): Word {
    Pow2Values();
    BitwiseFits(op, a, b, 32);
    Bitwise(op, a, b)
  }

  function NotWord(a: Word): Word { 0xFFFF_FFFF - a }

  function ShiftLeft(a: Word, n: nat): Word { ToWord(a * Pow2(n)) }

  function ShiftRight(a: Word, n: nat): Word { QuotientFits(a, Pow2(n)); a / Pow2(n) }

  // ---- division with remainder -------------------------------------------------------------

  lemma MulAtLeast(m: int, k: int)
    requires m > 0 && k >= 1
    ensures m * k >= m && m * k >= k
  {
  }

  lemma MulMinus(m: int, a: int, b: int)
    ensures m * (a - b) == m * a - m * b
  {
  }

  lemma DivMod(x: int, m: int)
    requires m > 0
    ensures x == m * (x / m) + x % m && 0 <= x % m < m
  {
  }

  lemma DivModUnique(x: int, m: int, q: int, r: int)
    requires 0 <= r < m && x == m * q + r
    ensures x / m == q && x % m == r
  {
    DivMod(x, m);
    MulMinus(m, q, x / m);
    if q > x / m {
      MulAtLeast(m, q - x / m);
    } else if q < x / m {
      MulAtLeast(m, x / m - q);
    }
  }

  lemma QuotientFits(a: nat, p: nat)
    requires p > 0
    ensures 0 <= a / p <= a
  {
    var q := a / p;
    DivMod(a, p);
    if q < 0 {
      MulAtLeast(p, -q);
    } else if q > 0 {
      MulAtLeast(p, q);
    }
  }

  /** Halving a number reduced modulo an even number. */
  lemma HalveMod(a: int, p: int)
    requires p > 0
    ensures a % (2 * p) == a % 2 + 2 * ((a / 2) % p)
    ensures (a % (2 * p)) / 2 == (a / 2) % p && (a % (2 * p)) % 2 == a % 2
  {
    var h := a / 2;
    calc {
      a;
      2 * h + a % 2;
      2 * (p * (h / p) + h % p) + a % 2;
      (2 * p) * (h / p) + (2 * (h % p) + a % 2);
    }
    DivModUnique(a, 2 * p, h / p, 2 * (h % p) + a % 2);
  }

  /** Removing multiples of the modulus. */
  lemma ModAdd(x: int, k: int, m: int)
    requires m > 0
    ensures (x + m * k) % m == x % m
  {
    assert x + m * k == m * (x / m + k) + x % m;
    DivModUnique(x + m * k, m, x / m + k, x % m);
  }

  /** Reducing by a multiple of m first changes nothing modulo m. */
  lemma ModMod(x: int, m: int, k: int)
    requires m > 0 && k > 0
    ensures m * k > 0 && (x % (m * k)) % m == x % m
  {
    var n := m * k;
    assert n > 0;
    assert x % n == x + m * (-k * (x / n));
    ModAdd(x, -k * (x / n), m);
  }

  /** Numbers with the same remainder still have the same one when they are moved by the same distance. */
  lemma CongruentShift(a: int, b: int, c: int, m: int)
    requires m > 0 && a % m == b % m
    ensures (a + c) % m == (b + c) % m && (c - a) % m == (c - b) % m
  {
    var i := a / m - b / m;
    DivMod(a, m);
    DivMod(b, m);
    MulMinus(m, a / m, b / m);
    assert a == b + m * i;
    ModAdd(b + c, i, m);
    ModAdd(c - a, i, m);
  }

  lemma CongruentAdd(a: int, b: int, c: int, d: int, m: int)
    requires m > 0 && a % m == b % m && c % m == d % m
    ensures (a + c) % m == (b + d) % m && (a - c) % m == (b - d) % m
  {
    CongruentShift(a, b, c, m);
    CongruentShift(c, d, b, m);
    CongruentShift(a, b, -c, m);
  }

  lemma CongruentMul(a: int, b: int, c: int, d: int, m: int)
    requires m > 0 && a % m == b % m && c % m == d % m
    ensures (a * c) % m == (b * d) % m
  {
    var i, j := a / m - b / m, c / m - d / m;
    assert a == b + m * i && c == d + m * j;
    assert a * c == b * d + m * (b * j + i * d + m * i * j);
    ModAdd(b * d, b * j + i * d + m * i * j, m);
  }

  // ---- powers of two -----------------------------------------------------------------------

  lemma Pow2Add(m: nat, n: nat)
    ensures Pow2(m + n) == Pow2(m) * Pow2(n)
  {
    if m == 0 {
    } else {
      Pow2Add(m - 1, n);
    }
  }

  lemma Pow2Monotone(m: nat, n: nat)
    requires m <= n
    ensures Pow2(m) <= Pow2(n)
  {
    if m < n { Pow2Monotone(m, n - 1); }
  }

  lemma Pow2Values()
    ensures Pow2(5) == 32 && Pow2(7) == 0x80 && Pow2(8) == 0x100 && Pow2(10) == 0x400 && Pow2(11) == 0x800
    ensures Pow2(12) == 0x1000 && Pow2(15) == 0x8000 && Pow2(16) == 0x1_0000 && Pow2(20) == 0x10_0000
    ensures Pow2(21) == 0x20_0000 && Pow2(24) == 0x100_0000 && Pow2(25) == 0x200_0000
    ensures Pow2(31) == 0x8000_0000 && Pow2(32) == 0x1_0000_0000
  {
    assert Pow2(8) == 0x100;
    Pow2Add(8, 8);
    Pow2Add(16, 5);
    Pow2Add(16, 8);
    Pow2Add(16, 9);
    Pow2Add(16, 15);
    Pow2Add(16, 16);
  }

  lemma MaskFits(n: nat)
    requires n < 32
    ensures Pow2(n) - 1 < 0x1_0000_0000
  {
    Pow2Values();
    Pow2Monotone(n, 32);
  }

  // ---- bit operations ----------------------------------------------------------------------

  lemma {:induction false} BitwiseFits(op: BitOp, a: nat, b: nat, k: nat)
    requires a < Pow2(k) && b < Pow2(k)
    ensures Bitwise(op, a, b) < Pow2(k)
  {
    if a == 0 && b == 0 {
    } else {
      BitwiseFits(op, a / 2, b / 2, k - 1);
    }
  }

  /** The low bits of the result depend only on the low bits of the operands: junk above stays above. */
  lemma {:induction false} BitwiseLow(op: BitOp, a: nat, b: nat, k: nat)
    ensures Bitwise(op, a, b) % Pow2(k) == Bitwise(op, a % Pow2(k), b % Pow2(k))
  {
    if k == 0 {
    } else {
      var p := Pow2(k - 1);
      BitwiseLow(op, a / 2, b / 2, k - 1);
      HalveMod(a, p);
      HalveMod(b, p);
      BitwiseUnfold(op, a, b);
      BitwiseUnfold(op, a % (2 * p), b % (2 * p));
      HalveMod(Bitwise(op, a, b), p);
    }
  }

  lemma {:induction false} BitwiseUnfold(op: BitOp, a: nat, b: nat)
    ensures Bitwise(op, a, b) == Bit(op, a, b) + 2 * Bitwise(op, a / 2, b / 2)
    ensures Bitwise(op, a, b) % 2 == Bit(op, a, b) && Bitwise(op, a, b) / 2 == Bitwise(op, a / 2, b / 2)
  {
    var low, rest := Bit(op, a, b), Bitwise(op, a / 2, b / 2);
    assert Bitwise(op, a, b) == low + 2 * rest by {
      if a == 0 && b == 0 { assert Bitwise(op, 0, 0) == 0; }
    }
    LastBit(low, rest);
  }

  lemma LastBit(low: nat, rest: nat)
    requires low < 2
    ensures (low + 2 * rest) % 2 == low && (low + 2 * rest) / 2 == rest
  {
  }

  /** Exclusive or detects inequality. */
  lemma {:induction false} XorZeroIff(a: nat, b: nat)
    ensures Bitwise(Xor, a, b) == 0 <==> a == b
    decreases a + b
  {
    if a == 0 && b == 0 {
    } else {
      XorZeroIff(a / 2, b / 2);
    }
  }

  /** Exclusive or with k ones complements a k-bit number. */
  lemma {:induction false} XorComplement(a: nat, k: nat)
    requires a < Pow2(k)
    ensures Bitwise(Xor, a, Pow2(k) - 1) == Pow2(k) - 1 - a
    ensures Bitwise(Xor, Pow2(k) - 1, a) == Pow2(k) - 1 - a
  {
    if k == 0 {
    } else {
      XorComplement(a / 2, k - 1);
    }
  }

  /** And with an odd number keeps the last bit. */
  lemma AndOdd(a: nat, half: nat)
    ensures Bitwise(And, a, 2 * half + 1) == a % 2 + 2 * Bitwise(And, a / 2, half)
  {
    hide Bitwise;
    BitwiseUnfold(And, a, 2 * half + 1);
  }

  /** Masking with k ones keeps the remainder modulo 2^k. */
  lemma {:induction false} AndMask(a: nat, k: nat)
    ensures Bitwise(And, a, Pow2(k) - 1) == a % Pow2(k)
  {
    hide Bitwise;
    if k == 0 {
      AndZero(a);
    } else {
      var p := Pow2(k - 1);
      AndMask(a / 2, k - 1);
      HalveMod(a, p);
      AndOdd(a, p - 1);
      assert 2 * (p - 1) + 1 == Pow2(k) - 1;
    }
  }

  lemma {:induction false} AndZero(a: nat)
    ensures Bitwise(And, a, 0) == 0
  {
    if a == 0 {
    } else {
      AndZero(a / 2);
    }
  }

  /** And with an even number works on the halves. */
  lemma AndEven(a: nat, half: nat)
    ensures Bitwise(And, a, 2 * half) == 2 * Bitwise(And, a / 2, half)
  {
    hide Bitwise;
    BitwiseUnfold(And, a, 2 * half);
  }

  /** Masking with the ones from bit k up to bit n drops the remainder modulo 2^k. */
  lemma {:induction false} AndHighMask(a: nat, k: nat, n: nat)
    requires k <= n && a < Pow2(n)
    ensures Pow2(n) - Pow2(k) >= 0
    ensures Bitwise(And, a, Pow2(n) - Pow2(k)) == a - a % Pow2(k)
  {
    hide Bitwise;
    Pow2Monotone(k, n);
    if k == 0 {
      AndMaskAll(a, n);
    } else {
      var half := Pow2(n - 1) - Pow2(k - 1);
      AndHighMask(a / 2, k - 1, n - 1);
      AndHighStep(a, Pow2(k - 1), half);
      assert 2 * half == Pow2(n) - Pow2(k);
    }
  }

  lemma AndHighStep(a: nat, p: nat, half: nat)
    requires p > 0 && Bitwise(And, a / 2, half) == a / 2 - (a / 2) % p
    ensures Bitwise(And, a, 2 * half) == a - a % (2 * p)
  {
    hide Bitwise;
    AndEven(a, half);
    HalveMod(a, p);
  }

  lemma AndMaskAll(a: nat, n: nat)
    requires a < Pow2(n)
    ensures Bitwise(And, a, Pow2(n) - 1) == a
  {
    hide Bitwise, Pow2;
    AndMask(a, n);
    DivModUnique(a, Pow2(n), 0, a);
  }

  /** Testing bit k. */
  lemma {:induction false} AndBit(a: nat, k: nat)
    ensures Bitwise(And, a, Pow2(k)) == ((a / Pow2(k)) % 2) * Pow2(k)
  {
    hide Bitwise;
    if k == 0 {
      AndMask(a, 1);
    } else {
      var p := Pow2(k - 1);
      AndBit(a / 2, k - 1);
      DivDiv(a, 2, p);
      BitwiseUnfold(And, a, 2 * p);
    }
  }

  lemma DivDiv(a: nat, m: nat, n: nat)
    requires m > 0 && n > 0
    ensures m * n > 0 && a / (m * n) == (a / m) / n
  {
    var q := a / m;
    DivMod(a, m);
    DivMod(q, n);
    MulAtLeast(m, n);
    NestedParts(m, n, q / n, q % n, a % m);
    DivModUnique(a, m * n, q / n, m * (q % n) + a % m);
  }

  lemma NestedParts(m: nat, n: nat, s: int, t: int, r: int)
    requires m > 0 && 0 <= t < n && 0 <= r < m
    ensures m * (n * s + t) + r == (m * n) * s + (m * t + r)
    ensures 0 <= m * t + r < m * n
  {
    assert m * (n * s) == (m * n) * s;
    MulMinus(m, n, t);
    MulAtLeast(m, n - t);
  }

  /** Or of numbers without a common bit is their sum. */
  lemma {:induction false} OrDisjoint(a: nat, b: nat, k: nat)
    requires a < Pow2(k) && b % Pow2(k) == 0
    ensures Bitwise(Or, a, b) == a + b
  {
    if k == 0 {
      OrZero(b);
    } else {
      HalveMod(b, Pow2(k - 1));
      OrDisjoint(a / 2, b / 2, k - 1);
      BitwiseUnfold(Or, a, b);
    }
  }

  lemma {:induction false} OrZero(b: nat)
    ensures Bitwise(Or, 0, b) == b
  {
    if b == 0 {
    } else {
      OrZero(b / 2);
    }
  }

  /** Bit k of a number. */
  predicate BitAt(a: nat, k: nat) { QuotientFits(a, Pow2(k)); (a / Pow2(k)) % 2 == 1 }

  /** The last bit is that of the parity, all others are bits of the half. */
  lemma BitAtHalf(a: nat, k: nat)
    ensures BitAt(a, k) <==> if k == 0 then a % 2 == 1 else BitAt(a / 2, k - 1)
  {
    if k > 0 { DivDiv(a, 2, Pow2(k - 1)); }
  }

  /** The three operations, bit by bit. */
  lemma {:induction false} BitwiseBits(op: BitOp, a: nat, b: nat, k: nat)
    ensures BitAt(Bitwise(op, a, b), k) <==>
              match op
              case And => BitAt(a, k) && BitAt(b, k)
              case Or => BitAt(a, k) || BitAt(b, k)
              case Xor => BitAt(a, k) != BitAt(b, k)
    decreases k
  {
    hide Bitwise, BitAt;
    BitwiseUnfold(op, a, b);
    BitAtHalf(a, k);
    BitAtHalf(b, k);
    BitAtHalf(Bitwise(op, a, b), k);
    if k > 0 {
      BitwiseBits(op, a / 2, b / 2, k - 1);
    }
  }

  lemma NoBits(k: nat)
    ensures !BitAt(0, k)
  {
    QuotientFits(0, Pow2(k));
  }

  /** The number below 2^n with all bits set has these n bits and no others. */
  lemma {:induction false} OnesBits(n: nat, k: nat)
    ensures BitAt(Pow2(n) - 1, k) <==> k < n
    decreases k
  {
    hide BitAt;
    if n == 0 {
      NoBits(k);
    } else {
      LastBit(1, Pow2(n - 1) - 1);
      BitAtHalf(Pow2(n) - 1, k);
      if k > 0 {
        OnesBits(n - 1, k - 1);
      }
    }
  }

  /** The mask of the n lowest bits has these bits and no others, and never more than a word has. */
  lemma BitmaskBits(n: nat, k: nat)
    ensures BitAt(LowerBitmask(n), k) <==> k < n && k < 32
  {
    Pow2Values();
    OnesBits(if n < 32 then n else 32, k);
  }

  // ---- division toward zero ----------------------------------------------------------------

  /** The quotient is rounded toward zero: the remainder is smaller than the divisor, in absolute value, and has
      the sign of the dividend, if it is not zero. */
  lemma QuotientTruncates(a: int, b: int)
    requires b != 0
    ensures var r := a - b * TruncatedQuotient(a, b);
            Abs(r) < Abs(b) && (a >= 0 ==> r >= 0) && (a <= 0 ==> r <= 0)
  {
    DivMod(Abs(a), Abs(b));
    QuotientFits(Abs(a), Abs(b));
    SignedProduct(b, Abs(a) / Abs(b));
  }

  lemma SignedProduct(b: int, q: int)
    ensures b * q == (if b < 0 then -(Abs(b) * q) else Abs(b) * q) && b * -q == -(b * q)
  {
  }
}

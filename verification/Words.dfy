/** Machine words as bounded integers, and the bitwise operators on integers of
    any size and sign (two's complement without a width, as Python has them;
    the C side uses the same operators on values below 2^32). */
module Words {
  type u8 = x: int | 0 <= x < 0x100
  type u16 = x: int | 0 <= x < 0x1_0000
  type u32 = x: int | 0 <= x < 0x1_0000_0000

  const TWO32 := 0x1_0000_0000

  datatype Option<+T> = None | Some(value: T)

  /** Reduction of any integer to 32 bits. */
  function Wrap(x: int): u32 { x % 0x1_0000_0000 }

  /** A 32-bit pattern read as a signed number. */
  function Signed(x: u32): int { if x < 0x8000_0000 then x else x - 0x1_0000_0000 }

  function Pow2(n: nat): (p: nat)
    ensures p >= 1
  {
    if n == 0 then 1 else 2 * Pow2(n - 1)
  }

  /** A page-aligned address. */
  type Frame = x: u32 | x % 4096 == 0

  /** The address with its page offset cleared. */
  function PageBase(x: u32): Frame { x / 4096 * 4096 }

  /** The byte of a frame at an address's page offset. */
  function At(base: Frame, va: u32): u32 { base + va % 4096 }

  function Bit(x: int, i: nat): bool { x / Pow2(i) % 2 == 1 }

  function Abs(x: int): nat { if x < 0 then -x else x }

  function Not(a: int): int { -a - 1 }

  function Not32(a: u32): u32 { 0xFFFF_FFFF - a }

  function And(a: int, b: int): int
    decreases Abs(a) + Abs(b)
  {
    if a == 0 || b == 0 then 0
    else if a == -1 then b
    else if b == -1 then a
    else (if a % 2 == 1 && b % 2 == 1 then 1 else 0) + 2 * And(a / 2, b / 2)
  }

  function Or(a: int, b: int): int
    decreases Abs(a) + Abs(b)
  {
    if a == 0 then b
    else if b == 0 then a
    else if a == -1 || b == -1 then -1
    else (if a % 2 == 1 || b % 2 == 1 then 1 else 0) + 2 * Or(a / 2, b / 2)
  }

  function Xor(a: int, b: int): int
    decreases Abs(a) + Abs(b)
  {
    if a == 0 then b
    else if b == 0 then a
    else if a == -1 then Not(b)
    else if b == -1 then Not(a)
    else (if a % 2 != b % 2 then 1 else 0) + 2 * Xor(a / 2, b / 2)
  }

  function And32(a: u32, b: u32): u32 { Bitwise32(a, b); And(a, b) }

  function Or32(a: u32, b: u32): u32 { Bitwise32(a, b); Or(a, b) }

  function Xor32(a: u32, b: u32): u32 { Bitwise32(a, b); Xor(a, b) }

  /** C's division: the quotient rounded toward zero. */
  function Truncated(a: int, b: int): int
    requires b != 0
  {
    if a >= 0 then a / b else -(-a / b)
  }

  // --- facts about the operators ---------------------------------------

  /** One step of each operator, whatever the operands. */
  lemma AndStep(a: int, b: int)
    ensures And(a, b) == (if a % 2 == 1 && b % 2 == 1 then 1 else 0) + 2 * And(a / 2, b / 2)
  {
    if a == -1 { assert a / 2 == -1; } else if b == -1 { assert b / 2 == -1; }
  }

  lemma OrStep(a: int, b: int)
    ensures Or(a, b) == (if a % 2 == 1 || b % 2 == 1 then 1 else 0) + 2 * Or(a / 2, b / 2)
  {
    if a == -1 { assert a / 2 == -1; } else if b == -1 { assert b / 2 == -1; }
  }

  lemma XorStep(a: nat, b: nat)
    ensures Xor(a, b) == (if a % 2 != b % 2 then 1 else 0) + 2 * Xor(a / 2, b / 2)
  {
  }

  lemma HalfMod(a: int, k: nat)
    requires k > 0
    ensures a % Pow2(k) == a % 2 + 2 * (a / 2 % Pow2(k - 1))
    ensures a % Pow2(k) / 2 == a / 2 % Pow2(k - 1) && a % Pow2(k) % 2 == a % 2
  {
    var p := Pow2(k - 1);
    var q, r := a / 2 / p, a / 2 % p;
    assert a == a % 2 + 2 * (p * q + r);
    assert 2 * (p * q) == (2 * p) * q;
    DivModUnique(a, 2 * p, q, a % 2 + 2 * r);
  }

  lemma DivModUnique(a: int, d: int, q: int, r: int)
    requires d > 0 && 0 <= r < d && a == d * q + r
    ensures a / d == q && a % d == r
  {
    var q', r' := a / d, a % d;
    assert a == d * q' + r';
    var k := q - q';
    assert d * q == d * q' + d * k;
    MulAtLeast(d, k);
  }

  lemma MulAtLeast(d: nat, k: int)
    ensures k >= 1 ==> d * k >= d
    ensures k <= -1 ==> d * k + d <= 0
  {
  }

  lemma WrapAdd(x: int, y: int)
    ensures Wrap(Wrap(x) + y) == Wrap(x + y)
  {
    var z := Wrap(x) + y;
    DivModUnique(x + y, TWO32, x / TWO32 + z / TWO32, z % TWO32);
  }

  lemma DivShrinks(a: nat, d: nat)
    requires d >= 1
    ensures 0 <= a / d <= a
  {
    var q := a / d;
    assert a == d * q + a % d;
    assert d * q >= q by { MulAtLeast(q, d); }
  }

  /** Masking with 2^k - 1 is reduction modulo 2^k, on negative numbers too. */
  lemma {:induction false} AndMask(a: int, k: nat)
    ensures And(a, Pow2(k) - 1) == a % Pow2(k)
    decreases k
  {
    hide And;
    if k == 0 {
      AndZero(a);
    } else {
      AndStep(a, Pow2(k) - 1);
      assert (Pow2(k) - 1) / 2 == Pow2(k - 1) - 1 && (Pow2(k) - 1) % 2 == 1;
      AndMask(a / 2, k - 1);
      HalfMod(a, k);
    }
  }

  lemma AndZero(a: int)
    ensures And(a, 0) == 0
  {
  }

  /** And with a k-bit number sees only the low k bits of the other operand. */
  lemma {:induction false} AndLow(a: nat, b: int, k: nat)
    requires a < Pow2(k)
    ensures And(a, b) == And(a, b % Pow2(k))
    decreases k
  {
    if k == 0 {
    } else {
      HalfMod(b, k);
      AndLow(a / 2, b / 2, k - 1);
      AndStep(a, b);
      AndStep(a, b % Pow2(k));
    }
  }

  /** The low k bits of a union depend only on the operands' low k bits. */
  lemma {:induction false} OrMod(a: int, b: int, k: nat)
    ensures Or(a, b) % Pow2(k) == Or(a % Pow2(k), b % Pow2(k))
    decreases k
  {
    if k == 0 {
    } else {
      HalfMod(a, k);
      HalfMod(b, k);
      OrMod(a / 2, b / 2, k - 1);
      OrStep(a, b);
      OrStep(a % Pow2(k), b % Pow2(k));
      assert Or(a, b) / 2 == Or(a / 2, b / 2);
      HalfMod(Or(a, b), k);
    }
  }

  /** On non-negative operands below 2^k every operator stays below 2^k. */
  lemma {:induction false} BitwiseRange(a: nat, b: nat, k: nat)
    requires a < Pow2(k) && b < Pow2(k)
    ensures 0 <= And(a, b) < Pow2(k)
    ensures 0 <= Or(a, b) < Pow2(k)
    ensures 0 <= Xor(a, b) < Pow2(k)
  {
    if k == 0 {
    } else {
      BitwiseRange(a / 2, b / 2, k - 1);
      AndStep(a, b); OrStep(a, b); XorStep(a, b);
    }
  }

  lemma Pow32()
    ensures Pow2(32) == 0x1_0000_0000
  {
    assert Pow2(8) == 256;
    Pow2Add(8, 8);
    Pow2Add(16, 16);
  }

  lemma {:induction false} Pow2Add(m: nat, n: nat)
    ensures Pow2(m + n) == Pow2(m) * Pow2(n)
  {
    if m == 0 {
    } else {
      Pow2Add(m - 1, n);
      assert Pow2(m + n) == 2 * Pow2(m - 1 + n);
    }
  }

  lemma {:induction false} Pow2Mono(m: nat, n: nat)
    requires m <= n
    ensures Pow2(m) <= Pow2(n)
    decreases n
  {
    if m == n {
    } else {
      Pow2Mono(m, n - 1);
    }
  }

  lemma Bitwise32(a: u32, b: u32)
    ensures 0 <= And(a, b) < TWO32 && 0 <= Or(a, b) < TWO32 && 0 <= Xor(a, b) < TWO32
  {
    Pow32();
    BitwiseRange(a, b, 32);
  }

  /** A sum of parts with no bit in common is their union. */
  lemma {:induction false} OrDisjoint(v: nat, c: nat, w: nat)
    requires v < Pow2(w)
    ensures Or(v, c * Pow2(w)) == v + c * Pow2(w)
  {
    if w == 0 {
    } else {
      var hi := c * Pow2(w - 1);
      assert c * Pow2(w) == 2 * hi;
      OrStep(v, 2 * hi);
      OrDisjoint(v / 2, c, w - 1);
    }
  }

  /** A bit of a union. */
  lemma {:induction false} OrBit(a: int, b: int, i: nat)
    ensures Bit(Or(a, b), i) <==> Bit(a, i) || Bit(b, i)
    decreases i
  {
    hide Or;
    OrStep(a, b);
    if i == 0 {
      assert Pow2(0) == 1;
    } else {
      hide Bit;
      OrBit(a / 2, b / 2, i - 1);
      assert Or(a, b) / 2 == Or(a / 2, b / 2);
      HalfBit(Or(a, b), i); HalfBit(a, i); HalfBit(b, i);
    }
  }

  /** And with a single bit tests it. */
  lemma {:induction false} AndBit(a: int, k: nat)
    ensures And(a, Pow2(k)) == if Bit(a, k) then Pow2(k) else 0
    decreases k
  {
    AndStep(a, Pow2(k));
    if k == 0 {
      assert And(a / 2, 0) == 0;
    } else {
      hide And, Bit;
      assert Pow2(k) / 2 == Pow2(k - 1) && Pow2(k) % 2 == 0;
      AndBit(a / 2, k - 1);
      HalfBit(a, k);
    }
  }

  lemma AndMinusOne(a: int)
    ensures And(a, -1) == a
  {
  }

  /** And with the complement of a low mask clears the low bits. */
  lemma {:induction false} AndHigh(a: int, k: nat)
    ensures And(a, Not(Pow2(k) - 1)) == a - a % Pow2(k)
    decreases k
  {
    hide And;
    if k == 0 {
      AndMinusOne(a);
    } else {
      var p: int := Pow2(k - 1);
      AndHigh(a / 2, k - 1);
      AndStep(a, Not(2 * p - 1));
      assert Not(2 * p - 1) / 2 == Not(p - 1) && Not(2 * p - 1) % 2 == 0;
      HalfMod(a, k);
    }
  }

  /** Complement within 32 bits or without a width: the same to a 32-bit And. */
  lemma AndNot32(a: u32, x: u32)
    ensures And(a, Not(x)) == And(a, Not32(x))
  {
    hide And;
    Pow32();
    AndLow(a, Not(x), 32);
    assert Not(x) % TWO32 == Not32(x);
  }

  lemma MaskIsWrap(v: int)
    ensures And(v, 0xFFFF_FFFF) == Wrap(v)
  {
    Pow32();
    AndMask(v, 32);
  }

  /** Quotient of magnitudes with the sign put back is truncating division. */
  lemma MagnitudeQuotient(a: int, b: int)
    requires b != 0
    ensures Truncated(a, b) == var q := Abs(a) / Abs(b); if (a < 0) != (b < 0) then -q else q
  {
    if b < 0 {
      var x := Abs(a);
      var q, r := x / -b, x % -b;
      assert x == -b * q + r;
      NegativeDivisor(x, b, -q, r);
    }
  }

  lemma NegativeDivisor(x: nat, b: int, q: int, r: int)
    requires b < 0 && x == b * q + r && 0 <= r < -b
    ensures x / b == q
  {
    var q', r' := x / b, x % b;
    assert x == b * q' + r' && 0 <= r' < -b;
    var k := q - q';
    assert -b * q == -b * q' + -b * k;
    MulAtLeast(-b, k);
  }

  lemma HalfBit(a: int, i: nat)
    requires i > 0
    ensures Bit(a, i) == Bit(a / 2, i - 1)
  {
    var p := Pow2(i - 1);
    var q, r := a / 2 / p, a / 2 % p;
    assert a == a % 2 + 2 * (p * q + r);
    assert 2 * (p * q) == (2 * p) * q;
    DivModUnique(a, 2 * p, q, a % 2 + 2 * r);
  }
}

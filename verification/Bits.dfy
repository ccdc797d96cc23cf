/** 64-bit unsigned arithmetic and the bit operations of include/bitwise.h.
    Words are natural numbers; the C operators `&`, `|` and `^` are defined by
    recursion on binary digits, so that every other module can reason about
    them as ordinary arithmetic. */
module Bits {

  const WORD: nat := 0x1_0000_0000_0000_0000

  function Pow2(k: nat): (p: nat)
    ensures p > 0
  {
    if k == 0 then 1 else 2 * Pow2(k - 1)
  }

  /** The value of a 64-bit unsigned expression. */
  function Wrap(x: int): (r: nat)
    ensures r < WORD
  {
    x % WORD
  }

  /** A 64-bit unsigned variable. */
  type U64 = x: nat | x < 0x1_0000_0000_0000_0000

  /** Two's complement negation on 64 bits. */
  function Neg(x: int): nat {
    Wrap(-x)
  }

  function And(a: nat, b: nat): nat {
    if a == 0 || b == 0 then 0
    else 2 * And(a / 2, b / 2) + (if a % 2 == 1 && b % 2 == 1 then 1 else 0)
  }

  function Or(a: nat, b: nat): nat {
    if a == 0 then b else if b == 0 then a
    else 2 * Or(a / 2, b / 2) + (if a % 2 == 1 || b % 2 == 1 then 1 else 0)
  }

  function Xor(a: nat, b: nat): nat {
    if a == 0 then b else if b == 0 then a
    else 2 * Xor(a / 2, b / 2) + (if a % 2 != b % 2 then 1 else 0)
  }

  /** `~x` on 64 bits. */
  function Not(x: nat): nat
    requires x < WORD
  {
    WORD - 1 - x
  }

  predicate Bit(x: nat, k: nat) {
    if k == 0 then x % 2 == 1 else Bit(x / 2, k - 1)
  }

  // ---- include/bitwise.h ----

  function Align(value: nat, alignTo: nat): nat
    requires 0 < alignTo <= WORD
  {
    And(value, Not(alignTo - 1))
  }

  function AlignUp(value: nat, alignTo: nat): nat
    requires 0 < alignTo
  {
    Wrap(value + And(Neg(value), alignTo - 1))
  }

  predicate IsBitSet(value: nat, bit: nat) {
    And(value, Pow2(bit)) != 0
  }

  function MaskHighBits(value: nat, bit: nat): nat {
    And(value, Neg(Pow2(bit)))
  }

  function ClearLowestBit(value: nat): nat {
    Wrap(value - And(value, Neg(value)))
  }

  predicate ShareHighestBit(a: nat, b: nat) {
    Xor(a, b) <= b
  }

  /** `__builtin_ctzl`: the index of the lowest set bit. */
  function FirstSet(x: nat): (k: nat)
    requires x > 0
    ensures Bit(x, k)
    ensures forall j: nat :: j < k ==> !Bit(x, j)
  {
    if x % 2 == 1 then 0 else 1 + FirstSet(x / 2)
  }

  // ---- powers of two, division ----

  lemma WordIsPow2()
    ensures Pow2(64) == WORD
  {
    HalfWordIsPow2();
    Pow2Add(32, 32);
  }

  lemma HalfWordIsPow2()
    ensures Pow2(5) == 32 && Pow2(12) == 4096 && Pow2(32) == 0x1_0000_0000
  {
    assert Pow2(2) == 4;
    Pow2Add(2, 2);
    Pow2Add(1, 4);
    Pow2Add(4, 4);
    Pow2Add(4, 8);
    Pow2Add(8, 8);
    Pow2Add(16, 16);
  }

  lemma {:induction false} Pow2Add(a: nat, b: nat)
    ensures Pow2(a + b) == Pow2(a) * Pow2(b)
  {
    if a > 0 {
      Pow2Add(a - 1, b);
    }
  }

  lemma {:induction false} Pow2Monotone(a: nat, b: nat)
    requires a <= b
    ensures Pow2(a) <= Pow2(b)
    decreases b - a
  {
    if a < b {
      Pow2Monotone(a + 1, b);
    }
  }

  lemma DivUnique(x: int, d: int, q: int, r: int)
    requires d > 0 && 0 <= r < d && x == q * d + r
    ensures x / d == q && x % d == r
  {
    var q', r' := x / d, x % d;
    assert x == q' * d + r';
    if q > q' {
      MulMonotone(q' + 1, q, d);
      MulMonotone(q', q', d);
    } else if q < q' {
      MulMonotone(q + 1, q', d);
      MulMonotone(q, q, d);
    }
  }

  lemma MulMonotone(a: int, b: int, d: int)
    requires a <= b && 0 <= d
    ensures a * d <= b * d
    ensures (a + 1) * d == a * d + d
  {
  }

  lemma ModHalve(x: nat, m: nat)
    requires m > 0
    ensures x % (2 * m) == 2 * ((x / 2) % m) + x % 2
  {
    var h := x / 2;
    assert h == (h / m) * m + h % m;
    assert x == 2 * h + x % 2;
    DivUnique(x, 2 * m, h / m, 2 * (h % m) + x % 2);
  }

  // ---- masks ----

  lemma {:induction false} AndLow(x: nat, k: nat)
    ensures And(x, Pow2(k) - 1) == x % Pow2(k)
  {
    if k > 0 {
      AndLow(x / 2, k - 1);
      ModHalve(x, Pow2(k - 1));
    }
  }

  lemma AndEvenMask(x: nat, h: nat)
    ensures And(x, 2 * h) == 2 * And(x / 2, h)
  {
    assert (2 * h) / 2 == h && (2 * h) % 2 == 0;
  }

  lemma AndHighStep(x: nat, mask: nat, q: nat)
    requires q > 0 && And(x / 2, mask) == x / 2 - (x / 2) % q
    ensures And(x, 2 * mask) == x - x % (2 * q)
  {
    hide And;
    AndEvenMask(x, mask);
    ModHalve(x, q);
  }

  lemma {:induction false} AndHigh(x: nat, n: nat, k: nat)
    requires k <= n && x < Pow2(n)
    ensures Pow2(k) <= Pow2(n)
    ensures And(x, Pow2(n) - Pow2(k)) == x - x % Pow2(k)
  {
    Pow2Monotone(k, n);
    if k == 0 {
      AndAll(x, n);
    } else {
      assert Pow2(n) == 2 * Pow2(n - 1) && Pow2(k) == 2 * Pow2(k - 1);
      hide And, Pow2;
      AndHigh(x / 2, n - 1, k - 1);
      AndHighStep(x, Pow2(n - 1) - Pow2(k - 1), Pow2(k - 1));
    }
  }

  lemma AndAll(x: nat, n: nat)
    requires x < Pow2(n)
    ensures And(x, Pow2(n) - Pow2(0)) == x - x % Pow2(0)
  {
    assert Pow2(0) == 1;
    hide And, Pow2;
    AndLow(x, n);
    DivUnique(x, Pow2(n), 0, x);
    DivUnique(x, 1, x, 0);
  }

  /** align64: clear the bits below a power of two. */
  lemma AlignIs(value: nat, k: nat)
    requires value < WORD && k <= 64
    ensures Pow2(k) <= WORD
    ensures Align(value, Pow2(k)) == value - value % Pow2(k)
  {
    hide And, Pow2;
    WordIsPow2();
    AndHigh(value, 64, k);
  }

  /** align64_up: the least multiple of the power of two that is at least `value`;
      above the last multiple that fits 64 bits it wraps to 0. */
  lemma AlignUpIs(value: nat, k: nat)
    requires k <= 64 && value < WORD
    ensures var r := AlignUp(value, Pow2(k));
            && (value + Pow2(k) <= WORD ==> r % Pow2(k) == 0 && value <= r < value + Pow2(k))
            && (value + Pow2(k) > WORD ==> r == 0)
  {
    hide And, Pow2, Neg, Wrap;
    AndLow(Neg(value), k);
    NegLowBits(value, k);
    var p, r := Pow2(k), value + Neg(value) % Pow2(k);
    if value + p <= WORD {
      WrapSmall(r);
    } else {
      NothingAbove(r, k);
      WrapWord();
    }
  }

  /** The only multiple of 2^k above 2^64 - 2^k and below 2^64 + 2^k is 2^64. */
  lemma NothingAbove(r: nat, k: nat)
    requires k <= 64 && r % Pow2(k) == 0 && WORD - Pow2(k) < r < WORD + Pow2(k)
    ensures r == WORD
  {
    hide Pow2;
    WordIsPow2();
    Pow2Add(64 - k, k);
    var p, n := Pow2(k), Pow2(64 - k);
    Quotient(r, p);
    var q := r / p;
    assert q * p == r && n * p == WORD;
    if q < n { MulMonotone(q + 1, n, p); } else if q > n { MulMonotone(n + 1, q, p); }
    MulMonotone(q, q, p);
    MulMonotone(n, n, p);
  }

  lemma WrapWord()
    ensures Wrap(WORD) == 0
  {
  }

  lemma WrapSmall(x: nat)
    requires x < WORD
    ensures Wrap(x) == x
  {
  }

  /** The low bits of the wrapped negation complete `value` to a multiple. */
  lemma NegLowBits(value: nat, k: nat)
    requires k <= 64 && value < WORD
    ensures 0 <= Neg(value) % Pow2(k) < Pow2(k)
    ensures (value + Neg(value) % Pow2(k)) % Pow2(k) == 0
  {
    var p, v := Pow2(k), Neg(value);
    NegMultiple(value, k);
    var m :| v == m * p - value;
    Quotient(v, p);
    MulSub(m, v / p, p);
    DivUnique(value + v % p, p, m - v / p, 0);
  }

  lemma Quotient(v: nat, p: nat)
    requires p > 0
    ensures v == (v / p) * p + v % p && 0 <= v % p < p
  {
  }

  lemma WrapAdd(x: int, y: int)
    ensures Wrap(Wrap(x) + y) == Wrap(x + y)
  {
    var q := x / WORD;
    assert x == q * WORD + Wrap(x);
    assert x + y == q * WORD + (Wrap(x) + y);
    ModShift(Wrap(x) + y, q);
  }

  lemma ModShift(x: int, q: int)
    ensures (q * WORD + x) % WORD == x % WORD
  {
    DivUnique(q * WORD + x, WORD, q + x / WORD, x % WORD);
  }

  lemma MulSub(a: int, b: int, d: int)
    ensures a * d - b * d == (a - b) * d
  {
  }

  lemma NegMultiple(value: nat, k: nat)
    requires k <= 64 && value < WORD
    ensures exists m: int :: Neg(value) == m * Pow2(k) - value
  {
    hide Pow2;
    WordIsPow2();
    Pow2Add(64 - k, k);
    if value == 0 {
      assert Neg(value) == 0 * Pow2(k) - value;
    } else {
      var x: int := value;
      DivUnique(-x, WORD, -1, WORD - x);
      assert Neg(value) == Pow2(64 - k) * Pow2(k) - value;
    }
  }

  // ---- individual bits ----

  lemma {:induction false} BitZero(k: nat)
    ensures !Bit(0, k)
  {
    if k > 0 { BitZero(k - 1); }
  }

  lemma AndHalves(a: nat, b: nat)
    requires a > 0 && b > 0
    ensures And(a, b) / 2 == And(a / 2, b / 2)
    ensures And(a, b) % 2 == 1 <==> a % 2 == 1 && b % 2 == 1
  {
    var h, r := And(a / 2, b / 2), if a % 2 == 1 && b % 2 == 1 then 1 else 0;
    DivUnique(2 * h + r, 2, h, r);
  }

  lemma {:induction false} BitAnd(a: nat, b: nat, k: nat)
    ensures Bit(And(a, b), k) <==> Bit(a, k) && Bit(b, k)
  {
    if a == 0 || b == 0 {
      BitZero(k);
    } else {
      AndHalves(a, b);
      hide And;
      if k > 0 { BitAnd(a / 2, b / 2, k - 1); }
    }
  }

  lemma OrHalves(a: nat, b: nat)
    requires a > 0 && b > 0
    ensures Or(a, b) / 2 == Or(a / 2, b / 2)
    ensures Or(a, b) % 2 == 1 <==> a % 2 == 1 || b % 2 == 1
  {
    var h, r := Or(a / 2, b / 2), if a % 2 == 1 || b % 2 == 1 then 1 else 0;
    DivUnique(2 * h + r, 2, h, r);
  }

  lemma {:induction false} BitOr(a: nat, b: nat, k: nat)
    ensures Bit(Or(a, b), k) <==> Bit(a, k) || Bit(b, k)
  {
    if a == 0 || b == 0 {
      BitZero(k);
    } else {
      OrHalves(a, b);
      hide Or;
      if k > 0 { BitOr(a / 2, b / 2, k - 1); }
    }
  }

  lemma {:induction false} BitPow2(i: nat, k: nat)
    ensures Bit(Pow2(i), k) <==> i == k
  {
    if k == 0 {
    } else if i == 0 {
      BitZero(k - 1);
    } else {
      BitPow2(i - 1, k - 1);
    }
  }

  lemma {:induction false} BitHighMask(n: nat, b: nat, k: nat)
    requires b <= n && k < n
    ensures Pow2(b) <= Pow2(n)
    ensures Bit(Pow2(n) - Pow2(b), k) <==> b <= k
  {
    var b' := if b > 0 then b - 1 else 0;
    MaskHalves(n, b, b');
    hide Pow2;
    if k > 0 {
      BitHighMask(n - 1, b', k - 1);
    }
  }

  lemma MaskHalves(n: nat, b: nat, b': nat)
    requires b <= n && n > 0 && b' == if b > 0 then b - 1 else 0
    ensures Pow2(b') <= Pow2(n - 1) && Pow2(b) <= Pow2(n)
    ensures (Pow2(n) - Pow2(b)) / 2 == Pow2(n - 1) - Pow2(b')
    ensures (Pow2(n) - Pow2(b)) % 2 == 1 <==> b == 0
  {
    Pow2Monotone(b', n - 1);
    Pow2Monotone(b, n);
    assert Pow2(n) == 2 * Pow2(n - 1) && (b > 0 ==> Pow2(b) == 2 * Pow2(b'));
    assert b == 0 ==> Pow2(b) == 1 && Pow2(b') == 1;
    hide Pow2;
    DivUnique(Pow2(n) - Pow2(b), 2, Pow2(n - 1) - Pow2(b'), if b == 0 then 1 else 0);
  }

  lemma {:induction false} BitComplement(n: nat, x: nat, k: nat)
    requires k < n && x < Pow2(n)
    ensures Bit(Pow2(n) - 1 - x, k) <==> !Bit(x, k)
  {
    assert Pow2(n) == 2 * Pow2(n - 1);
    hide Pow2;
    ComplementHalves(Pow2(n - 1), x);
    if k > 0 {
      BitComplement(n - 1, x / 2, k - 1);
    }
  }

  lemma ComplementHalves(p: nat, x: nat)
    requires x < 2 * p
    ensures x / 2 < p && (2 * p - 1 - x) / 2 == p - 1 - x / 2
    ensures (2 * p - 1 - x) % 2 == 1 <==> x % 2 != 1
  {
    DivUnique(2 * p - 1 - x, 2, p - 1 - x / 2, 1 - x % 2);
  }

  lemma {:induction false} BitBelow(x: nat, n: nat, k: nat)
    requires x < Pow2(n) && Bit(x, k)
    ensures k < n
  {
    if n == 0 {
      BitZero(k);
    } else if k > 0 {
      BitBelow(x / 2, n - 1, k - 1);
    }
  }

  lemma {:induction false} OrBound(a: nat, b: nat, n: nat)
    requires a < Pow2(n) && b < Pow2(n)
    ensures Or(a, b) < Pow2(n)
  {
    if n > 0 && a != 0 && b != 0 {
      OrBound(a / 2, b / 2, n - 1);
    }
  }

  lemma {:induction false} AndBound(a: nat, b: nat)
    ensures And(a, b) <= a
  {
    if a != 0 && b != 0 {
      AndBound(a / 2, b / 2);
    }
  }

  // ---- the 64-bit set operations used on the bin bitmap ----

  lemma IsBitSetIs(x: nat, i: nat)
    ensures IsBitSet(x, i) <==> Bit(x, i)
  {
    var r := And(x, Pow2(i));
    BitAnd(x, Pow2(i), i);
    BitPow2(i, i);
    if r != 0 {
      var k := FirstSet(r);
      BitAnd(x, Pow2(i), k);
      BitPow2(i, k);
    } else {
      BitZero(i);
    }
  }

  lemma SetBit(x: nat, i: nat)
    requires x < WORD && i < 64
    ensures Or(x, Pow2(i)) < WORD
    ensures forall k: nat :: Bit(Or(x, Pow2(i)), k) <==> Bit(x, k) || k == i
  {
    WordIsPow2();
    Pow2Monotone(i + 1, 64);
    OrBound(x, Pow2(i), 64);
    forall k: nat ensures Bit(Or(x, Pow2(i)), k) <==> Bit(x, k) || k == i {
      BitOr(x, Pow2(i), k);
      BitPow2(i, k);
    }
  }

  lemma ClearBit(x: nat, i: nat)
    requires x < WORD && i < 64
    ensures Pow2(i) < WORD && And(x, Not(Pow2(i))) < WORD
    ensures forall k: nat :: Bit(And(x, Not(Pow2(i))), k) <==> Bit(x, k) && k != i
  {
    WordIsPow2();
    Pow2Monotone(i + 1, 64);
    AndBound(x, Not(Pow2(i)));
    forall k: nat ensures Bit(And(x, Not(Pow2(i))), k) <==> Bit(x, k) && k != i {
      BitAnd(x, Not(Pow2(i)), k);
      if Bit(x, k) {
        BitBelow(x, 64, k);
        BitComplement(64, Pow2(i), k);
        BitPow2(i, k);
      }
    }
  }

  lemma MaskHighBitsIs(x: nat, i: nat)
    requires x < WORD && i < 64
    ensures MaskHighBits(x, i) < WORD
    ensures forall k: nat :: Bit(MaskHighBits(x, i), k) <==> Bit(x, k) && i <= k
  {
    hide And, Pow2, Neg, Bit;
    AndBound(x, Neg(Pow2(i)));
    forall k: nat ensures Bit(MaskHighBits(x, i), k) <==> Bit(x, k) && i <= k {
      MaskedBit(x, i, k);
    }
  }

  lemma NegPow2(i: nat)
    requires i < 64
    ensures Neg(Pow2(i)) == WORD - Pow2(i)
  {
    WordIsPow2();
    Pow2Monotone(i + 1, 64);
    hide Pow2, Neg;
    NegIs(Pow2(i));
  }

  lemma MaskedBit(x: nat, i: nat, k: nat)
    requires x < WORD && i < 64
    ensures Bit(And(x, Neg(Pow2(i))), k) <==> Bit(x, k) && i <= k
  {
    hide And, Pow2, Neg, Bit;
    NegPow2(i);
    WordIsPow2();
    BitAnd(x, Neg(Pow2(i)), k);
    if Bit(x, k) {
      BitBelow(x, 64, k);
      BitHighMask(64, i, k);
    }
  }

  lemma AndOddMask(x: nat, h: nat)
    requires x % 2 == 1
    ensures And(x, 2 * h + 1) == 2 * And(x / 2, h) + 1
  {
    assert (2 * h + 1) / 2 == h && (2 * h + 1) % 2 == 1;
  }

  /** `v & -v` isolates the lowest set bit. */
  lemma {:induction false} LowestBitOnly(v: nat, n: nat)
    requires 0 < v < Pow2(n)
    ensures And(v, Pow2(n) - v) == Pow2(FirstSet(v))
  {
    hide And;
    if v % 2 == 0 {
      LowestBitOnly(v / 2, n - 1);
      AndEvenMask(v, Pow2(n - 1) - v / 2);
    } else {
      // above the lowest bit the negation is the complement
      AndComplement(v / 2, n - 1);
      AndOddMask(v, Pow2(n - 1) - 1 - v / 2);
    }
  }

  lemma {:induction false} AndComplement(v: nat, n: nat)
    requires v < Pow2(n)
    ensures And(v, Pow2(n) - 1 - v) == 0
  {
    if n > 0 {
      AndComplement(v / 2, n - 1);
      assert (Pow2(n) - 1 - v) / 2 == Pow2(n - 1) - 1 - v / 2;
    }
  }

  lemma {:induction false} SubtractLowestBit(v: nat, k: nat)
    requires v > 0
    ensures Pow2(FirstSet(v)) <= v
    ensures Bit(v - Pow2(FirstSet(v)), k) <==> Bit(v, k) && k != FirstSet(v)
  {
    if v % 2 == 0 {
      SubtractLowestBit(v / 2, if k > 0 then k - 1 else 0);
      assert (v - Pow2(FirstSet(v))) / 2 == v / 2 - Pow2(FirstSet(v / 2));
    }
  }

  /** clear_lowest_bit removes exactly the lowest set bit, and keeps zero. */
  lemma ClearLowestBitIs(v: nat, k: nat)
    requires v < WORD
    ensures v == 0 ==> ClearLowestBit(v) == 0
    ensures v > 0 ==> (Bit(ClearLowestBit(v), k) <==> Bit(v, k) && k != FirstSet(v))
  {
    if v > 0 {
      hide And, Pow2, Neg, Bit, FirstSet, Wrap;
      WordIsPow2();
      NegIs(v);
      LowestBitOnly(v, 64);
      SubtractLowestBit(v, k);
      WrapSmall(v - Pow2(FirstSet(v)));
    } else {
      WrapSmall(0);
    }
  }

  lemma NegIs(v: nat)
    requires 0 < v < WORD
    ensures Neg(v) == WORD - v
  {
    var x: int := v;
    DivUnique(-x, WORD, -1, WORD - x);
  }

  // ---- share_highest_bit ----

  /** The index of the highest set bit. */
  function Top(x: nat): (k: nat)
    requires x > 0
    ensures Bit(x, k) && Pow2(k) <= x < Pow2(k + 1)
  {
    if x == 1 then 0 else Top(x / 2) + 1
  }

  lemma {:induction false} XorEqual(a: nat, b: nat)
    ensures Xor(a, b) == b <==> a == 0
  {
    if a != 0 && b != 0 {
      XorEqual(a / 2, b / 2);
    }
  }

  /** The test asks whether the highest bit of `a` is set in `b`: that is the bit
      whose flip decides the comparison. */
  lemma {:induction false} ShareHighestBitIs(a: nat, b: nat)
    ensures ShareHighestBit(a, b) <==> (a == 0 || Bit(b, Top(a)))
  {
    if b == 0 {
      if a > 0 { BitZero(Top(a)); }
    } else if a > 1 {
      ShareHighestBitIs(a / 2, b / 2);
      XorEqual(a / 2, b / 2);
    } else if a == 1 {
      assert Top(1) == 0;
      XorHalves(1, b);
      assert Xor(0, b / 2) == b / 2;
    }
  }

  lemma XorHalves(a: nat, b: nat)
    requires a > 0 && b > 0
    ensures Xor(a, b) == 2 * Xor(a / 2, b / 2) + (if a % 2 != b % 2 then 1 else 0)
  {
  }

  /** Above its highest bit a number has none. */
  lemma TopOrder(a: nat, b: nat)
    requires b > 0 && (a == 0 || Top(a) < Top(b))
    ensures a < b && (a == 0 || !Bit(a, Top(b)))
  {
    if a > 0 {
      Pow2Monotone(Top(a) + 1, Top(b));
      if Bit(a, Top(b)) { BitBelow(a, Top(a) + 1, Top(b)); }
    }
  }

  /** For `a >= b` it means what its name says; for `a < b` exactly if the highest
      bit of `a`, when it is not that of `b`, is clear in `b`. */
  lemma ShareHighestBitMeans(a: nat, b: nat)
    requires a > 0 && b > 0
    ensures a >= b ==> (ShareHighestBit(a, b) <==> Top(a) == Top(b))
    ensures a < b && Top(a) != Top(b) ==> (ShareHighestBit(a, b) <==> Bit(b, Top(a)))
    ensures a < b && Top(a) == Top(b) ==> ShareHighestBit(a, b)
  {
    hide ShareHighestBit, Bit, Pow2;
    ShareHighestBitIs(a, b);
    if Top(a) < Top(b) {
      TopOrder(a, b);
    } else if Top(b) < Top(a) {
      TopOrder(b, a);
    }
  }

  lemma {:induction false} XorCommutes(a: nat, b: nat)
    ensures Xor(a, b) == Xor(b, a)
  {
    if a > 0 && b > 0 {
      XorCommutes(a / 2, b / 2);
    }
  }

  /** Comparing with `a` instead of `b` is equivalent exactly if both are zero, or
      neither is and the highest bits agree or the lower of the two is clear in
      the other number. */
  lemma ComparisonWithA(a: nat, b: nat)
    ensures (Xor(a, b) <= b <==> Xor(a, b) <= a) <==>
            || (a == 0 && b == 0)
            || (a > 0 && b > 0 && (Top(a) == Top(b) || if a < b then !Bit(b, Top(a)) else !Bit(a, Top(b))))
  {
    if a > 0 && b > 0 {
      BothPositive(a, b);
    }
  }

  lemma BothPositive(a: nat, b: nat)
    requires a > 0 && b > 0
    ensures (Xor(a, b) <= b <==> Xor(a, b) <= a) <==>
            (Top(a) == Top(b) || if a < b then !Bit(b, Top(a)) else !Bit(a, Top(b)))
  {
    hide Bit, Pow2, Xor;
    ShareHighestBitIs(a, b);
    ShareHighestBitIs(b, a);
    XorCommutes(a, b);
    if Top(a) < Top(b) {
      TopOrder(a, b);
    } else if Top(b) < Top(a) {
      TopOrder(b, a);
    }
  }

  /** For `a >= b` the test fails exactly when a power of two separates them. */
  lemma HighestBitSeparates(a: nat, b: nat)
    requires a >= b
    ensures !ShareHighestBit(a, b) <==> exists k: nat :: b < Pow2(k) <= a
  {
    hide ShareHighestBit, Bit, Pow2;
    ShareHighestBitIs(a, b);
    if a > 0 {
      if b == 0 || Top(b) < Top(a) {
        if b == 0 { BitZero(Top(a)); } else { TopOrder(b, a); Pow2Monotone(Top(b) + 1, Top(a)); }
        assert b < Pow2(Top(a)) <= a;
      } else {
        if Top(b) > Top(a) { TopOrder(a, b); }
        NoneBetween(a, b);
      }
    }
  }

  lemma NoneBetween(a: nat, b: nat)
    requires a > 0 && b > 0 && Top(a) == Top(b)
    ensures !exists k: nat :: b < Pow2(k) <= a
  {
    hide Bit, Pow2;
    forall k: nat ensures !(b < Pow2(k) <= a) {
      if k <= Top(b) { Pow2Monotone(k, Top(b)); } else { Pow2Monotone(Top(a) + 1, k); }
    }
  }

  /** Without the order on the arguments the test means something else. */
  lemma ShareHighestBitNeedsOrder()
    ensures ShareHighestBit(1, 9) && !ShareHighestBit(9, 1)
  {
    assert Xor(4, 0) == 4 && Xor(0, 4) == 4;
    assert Xor(1, 9) == 2 * Xor(0, 4) + 0;
    assert Xor(9, 1) == 2 * Xor(4, 0) + 0;
  }
}

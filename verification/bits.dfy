/** Unsigned machine words as natural numbers, with the bitwise operators of C defined one bit at
    a time and characterised through `Bit`. */
module Bits {

  const WORD_LIMIT: nat := 0x1_0000_0000

  /** A 32-bit `unsigned long`. */
  type Word = n: nat | n < WORD_LIMIT

  function Pow2(n: nat): (p: nat)
    ensures p > 0
  {
    if n == 0 then 1 else 2 * Pow2(n - 1)
  }

  /** Bit `i` of `w`, counted from the least significant one. */
  predicate Bit(w: nat, i: nat)
    decreases i
  {
    if i == 0 then w % 2 == 1 else Bit(w / 2, i - 1)
  }

  function And(a: nat, b: nat): nat {
    if a == 0 || b == 0 then 0
    else 2 * And(a / 2, b / 2) + (if a % 2 == 1 && b % 2 == 1 then 1 else 0)
  }

  function Or(a: nat, b: nat): nat
    decreases a + b
  {
    if a == 0 then b else if b == 0 then a
    else 2 * Or(a / 2, b / 2) + (if a % 2 == 1 || b % 2 == 1 then 1 else 0)
  }

  function Shl(w: nat, s: nat): nat {
    if s == 0 then w else 2 * Shl(w, s - 1)
  }

  function Shr(w: nat, s: nat): nat
    decreases s
  {
    if s == 0 then w else Shr(w / 2, s - 1)
  }

  /** `(1 << bits) - 1` */
  function Ones(bits: nat): nat { Pow2(bits) - 1 }

  // ----- what each operator does to a bit -----

  lemma BitZero(i: nat)
    ensures !Bit(0, i)
  {
    if i > 0 { BitZero(i - 1); }
  }

  lemma {:induction false} BitAnd(a: nat, b: nat, i: nat)
    ensures Bit(And(a, b), i) == (Bit(a, i) && Bit(b, i))
    decreases i
  {
    if a == 0 || b == 0 {
      BitZero(i);
    } else if i > 0 {
      var rest := And(a / 2, b / 2);
      assert And(a, b) / 2 == rest && Bit(And(a, b), i) == Bit(rest, i - 1);
      BitAnd(a / 2, b / 2, i - 1);
    }
  }

  lemma {:induction false} BitOr(a: nat, b: nat, i: nat)
    ensures Bit(Or(a, b), i) == (Bit(a, i) || Bit(b, i))
    decreases i
  {
    if a == 0 || b == 0 {
      BitZero(i);
    } else if i > 0 {
      var rest := Or(a / 2, b / 2);
      assert Or(a, b) / 2 == rest && Bit(Or(a, b), i) == Bit(rest, i - 1);
      BitOr(a / 2, b / 2, i - 1);
    }
  }

  lemma {:induction false} BitShr(w: nat, s: nat, i: nat)
    ensures Bit(Shr(w, s), i) == Bit(w, s + i)
    decreases s
  {
    if s > 0 {
      BitShr(w / 2, s - 1, i);
    }
  }

  lemma {:induction false} BitShl(w: nat, s: nat, i: nat)
    ensures Bit(Shl(w, s), i) == (i >= s && Bit(w, i - s))
    decreases s
  {
    if s > 0 {
      if i > 0 {
        BitShl(w, s - 1, i - 1);
      }
    }
  }

  lemma {:induction false} BitOnes(bits: nat, i: nat)
    ensures Bit(Ones(bits), i) == (i < bits)
    decreases bits
  {
    if bits == 0 {
      BitZero(i);
    } else if i > 0 {
      assert Ones(bits) / 2 == Ones(bits - 1);
      BitOnes(bits - 1, i - 1);
    }
  }

  /** Two numbers with the same bits are equal. */
  lemma {:induction false} SameBits(a: nat, b: nat)
    requires forall i: nat :: Bit(a, i) == Bit(b, i)
    ensures a == b
    decreases a + b
  {
    if a != 0 || b != 0 {
      assert Bit(a, 0) == Bit(b, 0);
      forall i: nat ensures Bit(a / 2, i) == Bit(b / 2, i) {
        assert Bit(a, i + 1) == Bit(b, i + 1);
      }
      SameBits(a / 2, b / 2);
    }
  }

  /** A number below `2^n` has no bit at or above `n`. */
  lemma {:induction false} HighBitsClear(w: nat, n: nat, i: nat)
    requires w < Pow2(n) && i >= n
    ensures !Bit(w, i)
    decreases n
  {
    if n == 0 {
      BitZero(i);
    } else {
      HighBitsClear(w / 2, n - 1, i - 1);
    }
  }

  lemma {:induction false} BelowPow2(w: nat, n: nat)
    requires forall i: nat | i >= n :: !Bit(w, i)
    ensures w < Pow2(n)
    decreases w, n
  {
    if w > 0 {
      if n == 0 {
        forall i: nat | i >= 0 ensures !Bit(w / 2, i) { assert !Bit(w, i + 1); }
        assert !Bit(w, 0);
        BelowPow2(w / 2, 0);
      } else {
        forall i: nat | i >= n - 1 ensures !Bit(w / 2, i) { assert !Bit(w, i + 1); }
        BelowPow2(w / 2, n - 1);
      }
    }
  }

  // ----- bits and arithmetic -----

  /** The bits of `high * 2^n + low`. */
  lemma {:induction false} BitJoin(high: nat, low: nat, n: nat, i: nat)
    requires low < Pow2(n)
    ensures Bit(Pow2(n) * high + low, i) == if i < n then Bit(low, i) else Bit(high, i - n)
    decreases n
  {
    if n > 0 {
      var p := Pow2(n - 1);
      var w := Pow2(n) * high + low;
      assert w == 2 * (p * high) + low by {
        assert (2 * p) * high == 2 * (p * high);
      }
      assert w % 2 == low % 2 && w / 2 == p * high + low / 2;
      if i > 0 {
        BitJoin(high, low / 2, n - 1, i - 1);
      }
    }
  }

  /** `a` has no bit outside `b`. */
  lemma AndSubset(a: nat, b: nat)
    requires forall i: nat | Bit(a, i) :: Bit(b, i)
    ensures And(a, b) == a
  {
    forall i: nat ensures Bit(And(a, b), i) == Bit(a, i) { BitAnd(a, b, i); }
    SameBits(And(a, b), a);
  }

  lemma SmallMod(x: nat, p: nat)
    requires x < p
    ensures x % p == x
  {
  }

  /** Shifts are multiplication and division by a power of two. */
  lemma {:induction false} ShlIsTimes(w: nat, s: nat)
    ensures Shl(w, s) == w * Pow2(s)
  {
    if s > 0 {
      ShlIsTimes(w, s - 1);
      assert w * (2 * Pow2(s - 1)) == 2 * (w * Pow2(s - 1));
    }
  }

  lemma {:induction false} ShrIsDiv(w: nat, s: nat)
    ensures Shr(w, s) == w / Pow2(s)
    decreases s
  {
    if s > 0 {
      ShrIsDiv(w / 2, s - 1);
      DivDiv(w, 2, Pow2(s - 1));
    }
  }

  lemma MulMonotone(a: nat, x: int, y: int)
    requires x <= y
    ensures a * x <= a * y
  {
  }

  lemma QuotientIs(w: nat, d: nat, q: int, r: nat)
    requires r < d && w == d * q + r
    ensures w / d == q && w % d == r
  {
    if w / d < q {
      MulMonotone(d, w / d + 1, q);
    } else if q < w / d {
      MulMonotone(d, q + 1, w / d);
    }
  }

  lemma DivDiv(w: nat, a: nat, b: nat)
    requires a > 0 && b > 0
    ensures a * b > 0 && (w / a) / b == w / (a * b)
  {
    var q, r := w / a, w % a;
    var q', r' := q / b, q % b;
    assert a * b > 0 by { MulMonotone(a, 1, b); }
    assert a * r' + r < a * b by { MulMonotone(a, r' + 1, b); }
    assert w == (a * b) * q' + (a * r' + r) by {
      assert w == a * q + r;
      assert a * q == a * (b * q' + r') == a * (b * q') + a * r' == (a * b) * q' + a * r';
    }
    QuotientIs(w, a * b, q', a * r' + r);
  }

  /** Masking with `(1 << bits) - 1` is the remainder modulo `2^bits`. */
  lemma {:induction false} AndOnes(w: nat, bits: nat)
    ensures And(w, Ones(bits)) == w % Pow2(bits)
    decreases bits
  {
    if bits > 0 {
      assert Ones(bits) / 2 == Ones(bits - 1);
      AndOnes(w / 2, bits - 1);
      ModDouble(w, Pow2(bits - 1));
    }
  }

  lemma ModDouble(w: nat, p: nat)
    requires p > 0
    ensures w % (2 * p) == 2 * ((w / 2) % p) + w % 2
  {
    var q, r := (w / 2) / p, (w / 2) % p;
    assert w == (2 * p) * q + (2 * r + w % 2) by {
      assert w / 2 == p * q + r;
      assert 2 * (p * q) == (2 * p) * q;
    }
    QuotientIs(w, 2 * p, q, 2 * r + w % 2);
  }

  lemma {:induction false} AndUpper(a: nat, b: nat)
    ensures And(a, b) <= a && And(a, b) <= b
  {
    if a != 0 && b != 0 {
      AndUpper(a / 2, b / 2);
    }
  }

  /** Joining numbers that share no bit adds them. */
  lemma {:induction false} OrOfDisjoint(a: nat, b: nat)
    requires forall i: nat :: !(Bit(a, i) && Bit(b, i))
    ensures Or(a, b) == a + b
    decreases a + b
  {
    if a != 0 && b != 0 {
      assert !(Bit(a, 0) && Bit(b, 0));
      forall i: nat ensures !(Bit(a / 2, i) && Bit(b / 2, i)) {
        assert !(Bit(a, i + 1) && Bit(b, i + 1));
      }
      OrOfDisjoint(a / 2, b / 2);
    }
  }

  // ----- bit fields: `bits` bits starting at bit `shift` -----

  /** `(w >> shift) & ((1 << bits) - 1)` */
  function Field(w: nat, shift: nat, bits: nat): nat {
    And(Shr(w, shift), Ones(bits))
  }

  /** `(data & ((1 << bits) - 1)) << shift` */
  function Place(data: nat, shift: nat, bits: nat): nat {
    Shl(And(data, Ones(bits)), shift)
  }

  lemma BitField(w: nat, shift: nat, bits: nat, i: nat)
    ensures Bit(Field(w, shift, bits), i) == (i < bits && Bit(w, shift + i))
  {
    BitAnd(Shr(w, shift), Ones(bits), i);
    BitOnes(bits, i);
    BitShr(w, shift, i);
  }

  lemma BitPlace(data: nat, shift: nat, bits: nat, i: nat)
    ensures Bit(Place(data, shift, bits), i) == (shift <= i < shift + bits && Bit(data, i - shift))
  {
    BitShl(And(data, Ones(bits)), shift, i);
    if i >= shift {
      BitAnd(data, Ones(bits), i - shift);
      BitOnes(bits, i - shift);
    }
  }

  lemma FieldIsModulo(w: nat, shift: nat, bits: nat)
    ensures Field(w, shift, bits) == w / Pow2(shift) % Pow2(bits) < Pow2(bits)
  {
    ShrIsDiv(w, shift);
    AndOnes(Shr(w, shift), bits);
  }

  /** Writing a field that was clear and reading it back gives the value, cut to the field. */
  lemma FieldOfPlace(rest: nat, data: nat, shift: nat, bits: nat)
    requires forall i: nat | shift <= i < shift + bits :: !Bit(rest, i)
    ensures Field(Or(rest, Place(data, shift, bits)), shift, bits) == data % Pow2(bits)
  {
    var w := Or(rest, Place(data, shift, bits));
    forall i: nat ensures Bit(Field(w, shift, bits), i) == Bit(And(data, Ones(bits)), i) {
      BitField(w, shift, bits, i);
      BitOr(rest, Place(data, shift, bits), shift + i);
      BitPlace(data, shift, bits, shift + i);
      BitAnd(data, Ones(bits), i);
      BitOnes(bits, i);
    }
    SameBits(Field(w, shift, bits), And(data, Ones(bits)));
    AndOnes(data, bits);
  }

  /** Placing what was read puts the very bits of the word back. */
  lemma PlaceOfField(w: nat, shift: nat, bits: nat, i: nat)
    ensures Bit(Place(Field(w, shift, bits), shift, bits), i) == (shift <= i < shift + bits && Bit(w, i))
  {
    BitPlace(Field(w, shift, bits), shift, bits, i);
    if shift <= i {
      BitField(w, shift, bits, i - shift);
    }
  }

  /** Reading a field only depends on the bits of that field. */
  lemma FieldLocal(v: nat, w: nat, shift: nat, bits: nat)
    requires forall i: nat | shift <= i < shift + bits :: Bit(v, i) == Bit(w, i)
    ensures Field(v, shift, bits) == Field(w, shift, bits)
  {
    forall i: nat ensures Bit(Field(v, shift, bits), i) == Bit(Field(w, shift, bits), i) {
      BitField(v, shift, bits, i);
      BitField(w, shift, bits, i);
    }
    SameBits(Field(v, shift, bits), Field(w, shift, bits));
  }

  lemma Pow2Monotone(m: nat, n: nat)
    requires m <= n
    ensures Pow2(m) <= Pow2(n)
  {
    if m < n { Pow2Monotone(m, n - 1); }
  }

  lemma PowersOfTwo()
    ensures Pow2(0) == 1 && Pow2(1) == 2 && Pow2(2) == 4 && Pow2(3) == 8 && Pow2(4) == 16 && Pow2(5) == 32
    ensures Pow2(10) == 0x400 && Pow2(11) == 0x800 && Pow2(13) == 0x2000 && Pow2(14) == 0x4000
    ensures Pow2(16) == 0x1_0000 && Pow2(21) == 0x20_0000 && Pow2(23) == 0x80_0000
    ensures Pow2(24) == 0x100_0000 && Pow2(26) == 0x400_0000 && Pow2(32) == WORD_LIMIT
  {
    assert Pow2(8) == 256;
    assert Pow2(16) == 0x1_0000;
    assert Pow2(20) == 0x10_0000;
    assert Pow2(28) == 0x1000_0000;
  }
}

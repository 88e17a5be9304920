// What the machine's arithmetic means: when the overflow flag is right, and the law of division.
module RbmlArithmetic {
  import opened RbmlWord
  import opened RbmlCpu

  /** The test is exact for sums. */
  lemma SumFlagExact(x: Word, y: Word)
    ensures var a, b := Signed(x), Signed(y); SumOverflows(a, b) <==> Signed(Wrap(a + b)) != a + b
  {
  }

  /** But subtraction() tests the sum: whenever it sets the flag, the difference has not overflowed. */
  lemma DifferenceFlagAlwaysFalseAlarm(x: Word, y: Word)
    requires SumOverflows(Signed(x), Signed(y))
    ensures Signed(Wrap(Signed(x) - Signed(y))) == Signed(x) - Signed(y)
  {
  }

  /** The operands for which subtraction() sets the flag rightly, that is, for which neither sum nor difference overflows. */
  predicate DifferenceFlagRight(a: int, b: int) {
    if a > 0 then a - WORD_MAX <= b <= WORD_MAX - a
    else if a < 0 then WORD_MIN - a <= b <= a - WORD_MIN
    else b != WORD_MIN
  }

  lemma DifferenceFlag(x: Word, y: Word)
    ensures var a, b := Signed(x), Signed(y);
      (SumOverflows(a, b) <==> Signed(Wrap(a - b)) != a - b) <==> DifferenceFlagRight(a, b)
  {
    if SumOverflows(Signed(x), Signed(y)) {
      DifferenceFlagAlwaysFalseAlarm(x, y);
    }
  }

  /** 1 - 0x7fffffff sets the flag for nothing; 0 - (-0x80000000) overflows unnoticed. */
  lemma DifferenceFlagWrong()
    ensures var x: Word, y: Word := 1, 0x7fff_ffff; SumOverflows(Signed(x), Signed(y)) && Signed(Wrap(Signed(x) - Signed(y))) == Signed(x) - Signed(y)
    ensures var x: Word, y: Word := 0, 0x8000_0000; !SumOverflows(Signed(x), Signed(y)) && Signed(Wrap(Signed(x) - Signed(y))) != Signed(x) - Signed(y)
  {
  }

  lemma Fits(v: int)
    ensures Signed(Wrap(v)) == v <==> WORD_MIN <= v <= WORD_MAX
  {
  }

  // Division

  function Abs(a: int): nat { if a < 0 then -a else a }

  predicate Small(r: int, b: int) { Abs(r) < Abs(b) }

  predicate SameSign(r: int, a: int) { r != 0 ==> (r < 0) == (a < 0) }

  lemma Grows(m: nat, q: nat)
    requires m > 0
    ensures q <= m * q && (m > 1 && q > 0 ==> q < m * q)
  {
    assert (m - 1) * q >= 0;
    if m > 1 && q > 0 {
      assert (m - 2) * q >= 0;
    }
  }

  lemma TruncatedLaw(a: int, b: int)
    requires b != 0
    ensures var q, r := TruncatedDiv(a, b), TruncatedMod(a, b);
      a == b * q + r && Small(r, b) && SameSign(r, a) && Abs(q) <= Abs(a) && (Abs(b) > 1 && a != 0 ==> Abs(q) < Abs(a))
  {
    hide TruncatedDiv, TruncatedMod;
    var q, r := SignedParts(a, b);
    assert Small(r, b);
    Grows(Abs(b), q);
    Signs(a, b, q);
  }

  lemma SignedParts(a: int, b: int) returns (q: nat, r: nat)
    requires b != 0
    ensures Abs(a) == Abs(b) * q + r && r < Abs(b)
    ensures TruncatedDiv(a, b) == if (a < 0) == (b < 0) then q else 0 - q
    ensures TruncatedMod(a, b) == if a < 0 then 0 - r else r
  {
    var n, m := Abs(a), Abs(b);
    q, r := n / m, n % m;
  }

  lemma Signs(a: int, b: int, q: nat)
    ensures b * (if (a < 0) == (b < 0) then q else 0 - q) == if a < 0 then 0 - Abs(b) * q else Abs(b) * q
  {
  }

  /** Quotient and remainder of two words make up the dividend, the remainder smaller than the divisor and of the sign of the
      dividend; the one exception is the quotient of the least number and -1, which does not fit. */
  lemma DivisionLaw(x: Word, y: Word)
    requires Signed(y) != 0
    ensures var a, b := Signed(x), Signed(y);
      var q, r := Signed(Quotient(a, b)), Signed(Remainder(a, b));
      && Small(r, b) && SameSign(r, a)
      && (a == b * q + r <==> !(a == WORD_MIN && b == -1))
  {
    hide TruncatedDiv, TruncatedMod, Wrap, Signed;
    var a, b := Signed(x), Signed(y);
    InRange(x);
    InRange(y);
    var q, r := TruncatedDiv(a, b), TruncatedMod(a, b);
    TruncatedLaw(a, b);
    Fits(q);
    Fits(r);
    if a == WORD_MIN && b == -1 {
      assert q == -a;
    } else if b == -1 {
      assert q == -a;
    }
  }

  lemma InRange(x: Word)
    ensures WORD_MIN <= Signed(x) <= WORD_MAX
  {
  }

  // Multiplication

  /** Operands for which multiplication() sets the flag rightly. */
  predicate ProductFlagRight(a: int, b: int) {
    if a > 0 then b >= TruncatedDiv(WORD_MIN, a)
    else if a == 0 then true
    else if a == -1 then b != WORD_MIN
    else b == 0 || b == TruncatedDiv(WORD_MIN, a) || b < TruncatedDiv(WORD_MAX, a)
  }

  lemma Bounded(n: nat, m: nat, k: int)
    requires m > 0
    ensures k <= n / m <==> k * m <= n
  {
    var q := n / m;
    assert n == q * m + n % m;
    if k <= q {
      assert k * m <= q * m;
    } else {
      assert k * m >= (q + 1) * m;
    }
  }

  lemma Limit(a: int, b: int)
    requires a != 0
    ensures a > 0 ==> (b > TruncatedDiv(WORD_MAX, a) <==> a * b > WORD_MAX)
    ensures a < 0 ==> (b < TruncatedDiv(WORD_MAX, a) <==> a * b > WORD_MAX)
  {
    if a > 0 {
      Bounded(WORD_MAX, a, b);
    } else {
      Bounded(WORD_MAX, -a, -b);
      assert -b * -a == a * b;
    }
  }

  lemma LeastLimit(a: int, b: int)
    requires a != 0
    ensures a > 0 ==> (b >= TruncatedDiv(WORD_MIN, a) <==> a * b >= WORD_MIN)
    ensures a < 0 ==> (b <= TruncatedDiv(WORD_MIN, a) <==> a * b >= WORD_MIN)
  {
    if a > 0 {
      Bounded(-WORD_MIN, a, -b);
      assert -b * a == -(a * b);
    } else {
      Bounded(-WORD_MIN, -a, b);
      assert b * -a == -(a * b);
    }
  }

  lemma ByMinusOne()
    ensures Signed(Wrap(TruncatedDiv(WORD_MIN, -1))) == WORD_MIN
  {
  }

  lemma ProductFlag(x: Word, y: Word)
    ensures var a, b := Signed(x), Signed(y);
      (ProductOverflows(a, b) <==> Signed(Product(a, b)) != a * b) <==> ProductFlagRight(a, b)
  {
    hide Wrap, TruncatedDiv;
    var a, b := Signed(x), Signed(y);
    var product := a * b;
    Fits(product);
    if a > 0 {
      Limit(a, b);
      LeastLimit(a, b);
    } else if a == -1 {
      ByMinusOne();
    } else if a < 0 {
      Limit(a, b);
      Limit(a, 1);
      LeastLimit(a, b);
      LeastLimit(a, 0);
      LeastLimit(a, WORD_MAX);
      Fits(TruncatedDiv(WORD_MIN, a));
    }
  }

  /** -2 * 3 sets the flag for nothing; 2 * (-0x80000000) overflows unnoticed. */
  lemma ProductFlagWrong()
    ensures var x: Word, y: Word := 0xffff_fffe, 3; ProductOverflows(Signed(x), Signed(y)) && Signed(Product(Signed(x), Signed(y))) == Signed(x) * Signed(y)
    ensures var x: Word, y: Word := 2, 0x8000_0000; !ProductOverflows(Signed(x), Signed(y)) && Signed(Product(Signed(x), Signed(y))) != Signed(x) * Signed(y)
  {
  }
}

/** No two pairs of the orbit's 151 values have the same sum, so no four of them cancel. */
module OrbitSums {
  import opened Crc
  import opened ShiftOrbit

  const PERIOD := 151

  // ---------- the period ----------

  lemma OneOnce(row: nat, b3: bool, b2: bool, b1: bool, b0: bool)
    requires Number(row, b3, b2, b1, b0) < PERIOD && At(row, b3, b2, b1, b0) == 1
    ensures Number(row, b3, b2, b1, b0) == 0
  {
  }

  lemma TableReturns()
    ensures At(9, false, true, true, true) == 1 && Number(9, false, true, true, true) == PERIOD
  {
  }

  lemma OrbitReturns()
    ensures Orbit(PERIOD) == 1
  {
    TableReturns();
    hide Orbit, At, Number;
    OrbitTabled(9, false, true, true, true);
  }

  lemma OrbitAdd(i: nat, n: nat)
    ensures Orbit(i + n) == Shifts(Orbit(i), n)
  {
    ShiftsAdd(1, i, n);
  }

  lemma StartsAtOne()
    ensures Orbit(0) == 1
  {
  }

  lemma {:induction false} OrbitPeriodic(i: nat, k: nat)
    ensures Orbit(i + PERIOD * k) == Orbit(i)
  {
    if k > 0 {
      hide Orbit;
      OrbitPeriodic(i, k - 1);
      OrbitReturns();
      OrbitAdd(PERIOD, i + PERIOD * (k - 1));
      OrbitAdd(0, i + PERIOD * (k - 1));
      StartsAtOne();
    }
  }

  lemma OrbitModulo(i: nat)
    ensures Orbit(i) == Orbit(i % PERIOD)
  {
    hide Orbit;
    OrbitPeriodic(i % PERIOD, i / PERIOD);
  }

  /** The register returns exactly at the multiples of 151. */
  lemma PeriodExactly(i: nat)
    ensures Orbit(i) == 1 <==> i % PERIOD == 0
  {
    hide Orbit, At, Number;
    OrbitModulo(i);
    StartsAtOne();
    if Orbit(i % PERIOD) == 1 {
      var row, b3, b2, b1, b0 := DigitsOf(i % PERIOD);
      OrbitTabled(row, b3, b2, b1, b0);
      OneOnce(row, b3, b2, b1, b0);
    }
  }

  lemma OrbitInjective(i: nat, j: nat)
    requires i <= j
    ensures Orbit(i) == Orbit(j) <==> (j - i) % PERIOD == 0
  {
    hide Orbit, Shifts;
    PeriodExactly(j - i);
    OrbitAdd(j - i, i);
    OrbitAdd(0, i);
    StartsAtOne();
    if Orbit(i) == Orbit(j) {
      ShiftsInjective(Orbit(j - i), 1, i);
    }
  }

  // ---------- sums of two ----------

  /** No two points of the orbit but 0 and `d` have the sum of these two. */
  ghost predicate Lonely(d: nat) {
    forall i: nat, j: nat :: i < j < PERIOD && Xor(Orbit(i), Orbit(j)) == Xor(1, Orbit(d)) ==> i == 0 && j == d
  }

  /** The distances for which this is read off the table; doubling and mirroring them gives all others. */
  predicate Representative(d: nat) { d == 1 || d == 3 || d == 5 || d == 11 || d == 15 }

  function Sum(d: nat): bv16 {
    if d == 1 then 0xA6BD else if d == 3 then 0x29AE else if d == 5 then 0xFF88 else if d == 11 then 0xF328 else 0x1BE4
  }

  predicate Ordered(row: nat, other: nat, c3: bool, c2: bool, c1: bool, c0: bool) {
    row <= other <= 9 && (other == 9 ==> !c3 && !(c2 && c1 && c0))
  }

  predicate Numbers(row: nat, b3: bool, b2: bool, b1: bool, b0: bool,
                    other: nat, c3: bool, c2: bool, c1: bool, c0: bool, d: nat) {
    var i, j := Number(row, b3, b2, b1, b0), Number(other, c3, c2, c1, c0);
    (i == 0 && j == d) || (i == d && j == 0)
  }

  lemma SumsOf1(row: nat, b3: bool, b2: bool, b1: bool, b0: bool,
                other: nat, c3: bool, c2: bool, c1: bool, c0: bool)
    requires row <= 2 && Ordered(row, other, c3, c2, c1, c0)
    requires At(row, b3, b2, b1, b0) ^ At(other, c3, c2, c1, c0) == 0xA6BD
    ensures row == other == 0
    ensures (!b3 && !b2 && !b1 && !b0 && !c3 && !c2 && !c1 && c0)
            || (!b3 && !b2 && !b1 && b0 && !c3 && !c2 && !c1 && !c0)
  {
  }

  lemma NoHighSumOf1(row: nat, b3: bool, b2: bool, b1: bool, b0: bool,
                     other: nat, c3: bool, c2: bool, c1: bool, c0: bool)
    requires row >= 3 && Ordered(row, other, c3, c2, c1, c0)
    requires At(row, b3, b2, b1, b0) ^ At(other, c3, c2, c1, c0) == 0xA6BD
    ensures false
  {
  }

  lemma SumsOf3(row: nat, b3: bool, b2: bool, b1: bool, b0: bool,
                other: nat, c3: bool, c2: bool, c1: bool, c0: bool)
    requires row <= 2 && Ordered(row, other, c3, c2, c1, c0)
    requires At(row, b3, b2, b1, b0) ^ At(other, c3, c2, c1, c0) == 0x29AE
    ensures row == other == 0
    ensures (!b3 && !b2 && !b1 && !b0 && !c3 && !c2 && c1 && c0)
            || (!b3 && !b2 && b1 && b0 && !c3 && !c2 && !c1 && !c0)
  {
  }

  lemma NoHighSumOf3(row: nat, b3: bool, b2: bool, b1: bool, b0: bool,
                     other: nat, c3: bool, c2: bool, c1: bool, c0: bool)
    requires row >= 3 && Ordered(row, other, c3, c2, c1, c0)
    requires At(row, b3, b2, b1, b0) ^ At(other, c3, c2, c1, c0) == 0x29AE
    ensures false
  {
  }

  lemma SumsOf5(row: nat, b3: bool, b2: bool, b1: bool, b0: bool,
                other: nat, c3: bool, c2: bool, c1: bool, c0: bool)
    requires row <= 2 && Ordered(row, other, c3, c2, c1, c0)
    requires At(row, b3, b2, b1, b0) ^ At(other, c3, c2, c1, c0) == 0xFF88
    ensures row == other == 0
    ensures (!b3 && !b2 && !b1 && !b0 && !c3 && c2 && !c1 && c0)
            || (!b3 && b2 && !b1 && b0 && !c3 && !c2 && !c1 && !c0)
  {
  }

  lemma NoHighSumOf5(row: nat, b3: bool, b2: bool, b1: bool, b0: bool,
                     other: nat, c3: bool, c2: bool, c1: bool, c0: bool)
    requires row >= 3 && Ordered(row, other, c3, c2, c1, c0)
    requires At(row, b3, b2, b1, b0) ^ At(other, c3, c2, c1, c0) == 0xFF88
    ensures false
  {
  }

  lemma SumsOf11(row: nat, b3: bool, b2: bool, b1: bool, b0: bool,
                 other: nat, c3: bool, c2: bool, c1: bool, c0: bool)
    requires row <= 2 && Ordered(row, other, c3, c2, c1, c0)
    requires At(row, b3, b2, b1, b0) ^ At(other, c3, c2, c1, c0) == 0xF328
    ensures row == other == 0
    ensures (!b3 && !b2 && !b1 && !b0 && c3 && !c2 && c1 && c0)
            || (b3 && !b2 && b1 && b0 && !c3 && !c2 && !c1 && !c0)
  {
  }

  lemma NoHighSumOf11(row: nat, b3: bool, b2: bool, b1: bool, b0: bool,
                      other: nat, c3: bool, c2: bool, c1: bool, c0: bool)
    requires row >= 3 && Ordered(row, other, c3, c2, c1, c0)
    requires At(row, b3, b2, b1, b0) ^ At(other, c3, c2, c1, c0) == 0xF328
    ensures false
  {
  }

  lemma SumsOf15(row: nat, b3: bool, b2: bool, b1: bool, b0: bool,
                 other: nat, c3: bool, c2: bool, c1: bool, c0: bool)
    requires row <= 2 && Ordered(row, other, c3, c2, c1, c0)
    requires At(row, b3, b2, b1, b0) ^ At(other, c3, c2, c1, c0) == 0x1BE4
    ensures row == other == 0
    ensures (!b3 && !b2 && !b1 && !b0 && c3 && c2 && c1 && c0)
            || (b3 && b2 && b1 && b0 && !c3 && !c2 && !c1 && !c0)
  {
  }

  lemma NoHighSumOf15(row: nat, b3: bool, b2: bool, b1: bool, b0: bool,
                      other: nat, c3: bool, c2: bool, c1: bool, c0: bool)
    requires row >= 3 && Ordered(row, other, c3, c2, c1, c0)
    requires At(row, b3, b2, b1, b0) ^ At(other, c3, c2, c1, c0) == 0x1BE4
    ensures false
  {
  }

  lemma Sums(row: nat, b3: bool, b2: bool, b1: bool, b0: bool,
             other: nat, c3: bool, c2: bool, c1: bool, c0: bool, d: nat)
    requires Representative(d) && Ordered(row, other, c3, c2, c1, c0)
    requires At(row, b3, b2, b1, b0) ^ At(other, c3, c2, c1, c0) == Sum(d)
    ensures Numbers(row, b3, b2, b1, b0, other, c3, c2, c1, c0, d)
  {
    hide At, Ordered;
    match d
    case 1 =>
      if row <= 2 {
        SumsOf1(row, b3, b2, b1, b0, other, c3, c2, c1, c0);
      } else {
        NoHighSumOf1(row, b3, b2, b1, b0, other, c3, c2, c1, c0);
      }
    case 3 =>
      if row <= 2 {
        SumsOf3(row, b3, b2, b1, b0, other, c3, c2, c1, c0);
      } else {
        NoHighSumOf3(row, b3, b2, b1, b0, other, c3, c2, c1, c0);
      }
    case 5 =>
      if row <= 2 {
        SumsOf5(row, b3, b2, b1, b0, other, c3, c2, c1, c0);
      } else {
        NoHighSumOf5(row, b3, b2, b1, b0, other, c3, c2, c1, c0);
      }
    case 11 =>
      if row <= 2 {
        SumsOf11(row, b3, b2, b1, b0, other, c3, c2, c1, c0);
      } else {
        NoHighSumOf11(row, b3, b2, b1, b0, other, c3, c2, c1, c0);
      }
    case 15 =>
      if row <= 2 {
        SumsOf15(row, b3, b2, b1, b0, other, c3, c2, c1, c0);
      } else {
        NoHighSumOf15(row, b3, b2, b1, b0, other, c3, c2, c1, c0);
      }
  }

  lemma RepresentativeSum(d: nat)
    requires Representative(d)
    ensures Xor(1, Orbit(d)) == Sum(d)
  {
    var row, b3, b2, b1, b0 := DigitsOf(d);
    OrbitTabled(row, b3, b2, b1, b0);
    hide Orbit;
  }

  lemma BelowPeriod(row: nat, b3: bool, b2: bool, b1: bool, b0: bool)
    requires Number(row, b3, b2, b1, b0) < PERIOD
    ensures Ordered(row, row, b3, b2, b1, b0)
  {
  }

  lemma RepresentativePair(d: nat, i: nat, j: nat)
    requires Representative(d) && i < j < PERIOD && Xor(Orbit(i), Orbit(j)) == Sum(d)
    ensures i == 0 && j == d
  {
    hide Orbit, At, Number, Sum, Representative;
    var row, b3, b2, b1, b0 := DigitsOf(i);
    var other, c3, c2, c1, c0 := DigitsOf(j);
    BelowPeriod(other, c3, c2, c1, c0);
    OrbitTabled(row, b3, b2, b1, b0);
    OrbitTabled(other, c3, c2, c1, c0);
    Sums(row, b3, b2, b1, b0, other, c3, c2, c1, c0, d);
  }

  lemma RepresentativeLonely(d: nat)
    requires Representative(d)
    ensures Lonely(d)
  {
    hide Orbit, Sum, Xor, Representative;
    RepresentativeSum(d);
    forall i: nat, j: nat | i < j < PERIOD && Xor(Orbit(i), Orbit(j)) == Xor(1, Orbit(d))
      ensures i == 0 && j == d
    {
      RepresentativePair(d, i, j);
    }
  }

  /** The pair in either order. */
  lemma LonelyPair(d: nat, i: nat, j: nat)
    requires Lonely(d) && i < PERIOD && j < PERIOD && i != j
    requires Xor(Orbit(i), Orbit(j)) == Xor(1, Orbit(d))
    ensures (i == 0 && j == d) || (i == d && j == 0)
  {
    hide Orbit;
    XorCommutes(Orbit(i), Orbit(j));
  }

  // ---------- mirroring ----------

  lemma ShiftedSum(i: nat, j: nat, d: nat, n: nat)
    requires Xor(Orbit(i), Orbit(j)) == Xor(1, Orbit(d))
    ensures Xor(Orbit(i + n), Orbit(j + n)) == Xor(Orbit(n), Orbit(d + n))
  {
    hide Xor, Orbit, Shifts;
    OrbitAdd(i, n);
    OrbitAdd(j, n);
    OrbitAdd(d, n);
    OrbitAdd(0, n);
    StartsAtOne();
    ShiftsLinear(Orbit(i), Orbit(j), n);
    ShiftsLinear(1, Orbit(d), n);
  }

  lemma MirrorModulo(i: nat, d: nat)
    requires i < PERIOD && 0 < d < PERIOD
    ensures (i + (PERIOD - d)) % PERIOD == 0 <==> i == d
    ensures (i + (PERIOD - d)) % PERIOD == PERIOD - d <==> i == 0
  {
  }

  lemma ApartModulo(i: nat, j: nat, n: nat)
    requires i < j < PERIOD
    ensures (i + n) % PERIOD != (j + n) % PERIOD
  {
    var q, r := (i + n) / PERIOD, (j + n) / PERIOD;
    assert (i + n) % PERIOD == i + n - PERIOD * q && (j + n) % PERIOD == j + n - PERIOD * r;
  }

  /** Seen from the other point of the pair, the distance is the complement. */
  lemma Mirrored(d: nat)
    requires 0 < d < PERIOD && Lonely(PERIOD - d)
    ensures Lonely(d)
  {
    hide Xor, Orbit;
    forall i: nat, j: nat | i < j < PERIOD && Xor(Orbit(i), Orbit(j)) == Xor(1, Orbit(d))
      ensures i == 0 && j == d
    {
      MirroredPair(d, i, j);
    }
  }

  lemma MirroredPair(d: nat, i: nat, j: nat)
    requires 0 < d < PERIOD && Lonely(PERIOD - d) && i < j < PERIOD
    requires Xor(Orbit(i), Orbit(j)) == Xor(1, Orbit(d))
    ensures i == 0 && j == d
  {
    hide Xor, Orbit, Lonely;
    var n := PERIOD - d;
    ShiftedSum(i, j, d, n);
    OrbitModulo(i + n);
    OrbitModulo(j + n);
    OrbitReturns();
    XorCommutes(Orbit(n), 1);
    MirrorModulo(i, d);
    MirrorModulo(j, d);
    ApartModulo(i, j, n);
    LonelyPair(n, (i + n) % PERIOD, (j + n) % PERIOD);
  }

  // ---------- doubling ----------

  lemma MiddleCancels(x: bv16, y: bv16, z: bv16)
    ensures Xor(Xor(x, y), Xor(y, z)) == Xor(x, z)
  {
    hide Xor;
    XorAssociates(x, y, Xor(y, z));
    XorCancels(y, z);
  }

  /** Of all sixteen products of four points those off the diagonal cancel in pairs. */
  lemma DiagonalRemains(aa: bv16, ab: bv16, ac: bv16, ad: bv16, bb: bv16, bc: bv16, bd: bv16,
                        cc: bv16, cd: bv16, dd: bv16)
    ensures Xor(Xor(Xor(Xor(aa, ab), Xor(ac, ad)), Xor(Xor(ab, bb), Xor(bc, bd))),
                Xor(Xor(Xor(ac, bc), Xor(cc, cd)), Xor(Xor(ad, bd), Xor(cd, dd))))
         == Xor(Xor(aa, bb), Xor(cc, dd))
  {
    hide Xor;
    XorExchange(Xor(aa, ab), Xor(ac, ad), Xor(ab, bb), Xor(bc, bd));
    MiddleCancels(aa, ab, bb);
    XorExchange(Xor(ac, bc), Xor(cc, cd), Xor(ad, bd), Xor(cd, dd));
    MiddleCancels(cc, cd, dd);
    XorExchange(ac, bc, ad, bd);
    MiddleCancels(Xor(aa, bb), Xor(Xor(ac, ad), Xor(bc, bd)), Xor(cc, dd));
  }

  function FourSum(a: nat, b: nat, c: nat, d: nat): bv16 {
    Xor(Xor(Orbit(a), Orbit(b)), Xor(Orbit(c), Orbit(d)))
  }

  lemma ShiftedFourSum(a: nat, b: nat, c: nat, d: nat, n: nat)
    ensures FourSum(a + n, b + n, c + n, d + n) == Shifts(FourSum(a, b, c, d), n)
  {
    hide Xor, Orbit, Shifts;
    OrbitAdd(a, n);
    OrbitAdd(b, n);
    OrbitAdd(c, n);
    OrbitAdd(d, n);
    ShiftsLinear(Orbit(a), Orbit(b), n);
    ShiftsLinear(Orbit(c), Orbit(d), n);
    ShiftsLinear(Xor(Orbit(a), Orbit(b)), Xor(Orbit(c), Orbit(d)), n);
  }

  /** Four points that cancel still do when their distances are doubled. */
  lemma SquaredSum(a: nat, b: nat, c: nat, d: nat)
    requires FourSum(a, b, c, d) == 0
    ensures FourSum(2 * a, 2 * b, 2 * c, 2 * d) == 0
  {
    hide Xor, Orbit, Shifts;
    ShiftedFourSum(a, b, c, d, a);
    ShiftedFourSum(a, b, c, d, b);
    ShiftedFourSum(a, b, c, d, c);
    ShiftedFourSum(a, b, c, d, d);
    ShiftsZero(a);
    ShiftsZero(b);
    ShiftsZero(c);
    ShiftsZero(d);
    XorCancels(0, 0);
    DiagonalRemains(Orbit(a + a), Orbit(a + b), Orbit(a + c), Orbit(a + d), Orbit(b + b), Orbit(b + c), Orbit(b + d),
                    Orbit(c + c), Orbit(c + d), Orbit(d + d));
  }

  lemma SameSums(x: bv16, y: bv16)
    ensures Xor(x, y) == 0 <==> x == y
  {
    hide Xor;
    XorCancels(x, y);
    XorCancels(y, x);
  }

  lemma DoubleModulo(i: nat, d: nat)
    requires i < PERIOD && d < PERIOD
    ensures (2 * i) % PERIOD == 2 * d % PERIOD ==> i == d
    ensures (2 * i) % PERIOD == 0 ==> i == 0
  {
    DoubleRemainder(i);
    DoubleRemainder(d);
  }

  lemma DoubleRemainder(i: nat)
    requires i < PERIOD
    ensures (2 * i) % PERIOD == if 2 * i < PERIOD then 2 * i else 2 * i - PERIOD
  {
  }

  lemma Doubled(d: nat)
    requires 0 < d < PERIOD && Lonely(2 * d % PERIOD)
    ensures Lonely(d)
  {
    hide Xor, Orbit;
    forall i: nat, j: nat | i < j < PERIOD && Xor(Orbit(i), Orbit(j)) == Xor(1, Orbit(d))
      ensures i == 0 && j == d
    {
      StartsAtOne();
      SameSums(Xor(Orbit(i), Orbit(j)), Xor(Orbit(0), Orbit(d)));
      SquaredSum(i, j, 0, d);
      SameSums(Xor(Orbit(2 * i), Orbit(2 * j)), Xor(Orbit(0), Orbit(2 * d)));
      OrbitModulo(2 * i);
      OrbitModulo(2 * j);
      OrbitModulo(2 * d);
      DoubleModulo(i, d);
      DoubleModulo(j, d);
      DoubleModulo(i, j);
      LonelyPair(2 * d % PERIOD, 2 * i % PERIOD, 2 * j % PERIOD);
    }
  }

  // ---------- all distances ----------

  /** Doubling `d` gives `e` or its mirror. */
  predicate Folds(d: nat, e: nat) { 0 < d <= 75 && 0 < e <= 75 && (2 * d == e || 2 * d == PERIOD - e) }

  lemma Folded(d: nat, e: nat)
    requires Folds(d, e) && Lonely(e)
    ensures Lonely(d)
  {
    hide Lonely;
    if 2 * d != e {
      Mirrored(PERIOD - e);
    }
    Doubled(d);
  }

  /** From one distance around its cycle of fifteen. */
  lemma Cycle(d0: nat, d1: nat, d2: nat, d3: nat, d4: nat, d5: nat, d6: nat, d7: nat,
              d8: nat, d9: nat, d10: nat, d11: nat, d12: nat, d13: nat, d14: nat)
    requires Lonely(d0)
    requires Folds(d1, d0) && Folds(d2, d1) && Folds(d3, d2) && Folds(d4, d3) && Folds(d5, d4)
    requires Folds(d6, d5) && Folds(d7, d6) && Folds(d8, d7) && Folds(d9, d8) && Folds(d10, d9)
    requires Folds(d11, d10) && Folds(d12, d11) && Folds(d13, d12) && Folds(d14, d13)
    ensures Lonely(d0) && Lonely(d1) && Lonely(d2) && Lonely(d3) && Lonely(d4)
    ensures Lonely(d5) && Lonely(d6) && Lonely(d7) && Lonely(d8) && Lonely(d9)
    ensures Lonely(d10) && Lonely(d11) && Lonely(d12) && Lonely(d13) && Lonely(d14)
  {
    hide Lonely;
    Folded(d1, d0);
    Folded(d2, d1);
    Folded(d3, d2);
    Folded(d4, d3);
    Folded(d5, d4);
    Folded(d6, d5);
    Folded(d7, d6);
    Folded(d8, d7);
    Folded(d9, d8);
    Folded(d10, d9);
    Folded(d11, d10);
    Folded(d12, d11);
    Folded(d13, d12);
    Folded(d14, d13);
  }

  predicate CycleOf1(d: nat) { d in {1, 75, 38, 19, 66, 33, 59, 46, 23, 64, 32, 16, 8, 4, 2} }

  lemma CycleOf1Lonely(d: nat)
    requires CycleOf1(d)
    ensures Lonely(d)
  {
    hide Lonely;
    RepresentativeLonely(1);
    Cycle(1, 75, 38, 19, 66, 33, 59, 46, 23, 64, 32, 16, 8, 4, 2);
  }

  predicate CycleOf3(d: nat) { d in {3, 74, 37, 57, 47, 52, 26, 13, 69, 41, 55, 48, 24, 12, 6} }

  lemma CycleOf3Lonely(d: nat)
    requires CycleOf3(d)
    ensures Lonely(d)
  {
    hide Lonely;
    RepresentativeLonely(3);
    Cycle(3, 74, 37, 57, 47, 52, 26, 13, 69, 41, 55, 48, 24, 12, 6);
  }

  predicate CycleOf5(d: nat) { d in {5, 73, 39, 56, 28, 14, 7, 72, 36, 18, 9, 71, 40, 20, 10} }

  lemma CycleOf5Lonely(d: nat)
    requires CycleOf5(d)
    ensures Lonely(d)
  {
    hide Lonely;
    RepresentativeLonely(5);
    Cycle(5, 73, 39, 56, 28, 14, 7, 72, 36, 18, 9, 71, 40, 20, 10);
  }

  predicate CycleOf11(d: nat) { d in {11, 70, 35, 58, 29, 61, 45, 53, 49, 51, 50, 25, 63, 44, 22} }

  lemma CycleOf11Lonely(d: nat)
    requires CycleOf11(d)
    ensures Lonely(d)
  {
    hide Lonely;
    RepresentativeLonely(11);
    Cycle(11, 70, 35, 58, 29, 61, 45, 53, 49, 51, 50, 25, 63, 44, 22);
  }

  predicate CycleOf15(d: nat) { d in {15, 68, 34, 17, 67, 42, 21, 65, 43, 54, 27, 62, 31, 60, 30} }

  lemma CycleOf15Lonely(d: nat)
    requires CycleOf15(d)
    ensures Lonely(d)
  {
    hide Lonely;
    RepresentativeLonely(15);
    Cycle(15, 68, 34, 17, 67, 42, 21, 65, 43, 54, 27, 62, 31, 60, 30);
  }

  /** The five cycles and their mirrors are all distances. */
  lemma CyclesCover(d: nat)
    requires 0 < d <= 75
    ensures CycleOf1(d) || CycleOf3(d) || CycleOf5(d) || CycleOf11(d) || CycleOf15(d)
  {
  }

  lemma NearLonely(d: nat)
    requires 0 < d <= 75
    ensures Lonely(d)
  {
    hide Lonely, CycleOf1, CycleOf3, CycleOf5, CycleOf11, CycleOf15;
    CyclesCover(d);
    if CycleOf1(d) {
      CycleOf1Lonely(d);
    } else if CycleOf3(d) {
      CycleOf3Lonely(d);
    } else if CycleOf5(d) {
      CycleOf5Lonely(d);
    } else if CycleOf11(d) {
      CycleOf11Lonely(d);
    } else {
      CycleOf15Lonely(d);
    }
  }

  /** Every distance below the period. */
  lemma EveryLonely(d: nat)
    requires 0 < d < PERIOD
    ensures Lonely(d)
  {
    hide Lonely;
    if d <= 75 {
      NearLonely(d);
    } else {
      NearLonely(PERIOD - d);
      Mirrored(d);
    }
  }

  /** No four different points of the orbit cancel. */
  lemma NoFourCancel(a: nat, b: nat, c: nat, d: nat)
    requires a > b > c > d && a - d < PERIOD
    ensures FourSum(a, b, c, d) != 0
  {
    hide Orbit, Xor, Shifts;
    if FourSum(a, b, c, d) == 0 {
      ShiftedFourSum(a - d, b - d, c - d, 0, d);
      ShiftsZero(d);
      ShiftsInjective(FourSum(a - d, b - d, c - d, 0), 0, d);
      SameSums(Xor(Orbit(a - d), Orbit(b - d)), Xor(Orbit(c - d), Orbit(0)));
      StartsAtOne();
      XorCommutes(Orbit(c - d), 1);
      EveryLonely(c - d);
      LonelyPair(c - d, a - d, b - d);
    }
  }
}

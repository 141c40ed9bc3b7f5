/** Correctly rounded binary64 arithmetic, on the magnitudes money meets (no overflow, no subnormals):
    53 significant bits, ties to even. */
module Float64 {

  const TWO52: real := 4503599627370496.0
  const TWO53: real := 9007199254740992.0

  /** The integer nearest to a number, ties to even. */
  function RoundHalfEven(x: real): int {
    var n := x.Floor;
    var f := x - n as real;
    if f < 0.5 || (f == 0.5 && n % 2 == 0) then n else n + 1
  }

  lemma ShrinksWhenDoubled(x: real)
    requires 0.0 < x < TWO52
    ensures (TWO53 / x).Floor >= 2
    ensures 2.0 * x < TWO52 ==> (TWO53 / (2.0 * x)).Floor < (TWO53 / x).Floor
  {
  }

  /** The binary64 number nearest to a positive number: scale it until its integer part has 53 bits,
      round, and scale back. */
  function Nearest(x: real): real
    requires 0.0 < x
    decreases if x < TWO52 then (TWO53 / x).Floor else if x >= TWO53 then x.Floor else 0
  {
    if x < TWO52 then ShrinksWhenDoubled(x); Nearest(2.0 * x) / 2.0
    else if x >= TWO53 then 2.0 * Nearest(x / 2.0)
    else RoundHalfEven(x) as real
  }

  /** Rounding is symmetric around zero. */
  function Rounded(x: real): real {
    if x == 0.0 then 0.0 else if x > 0.0 then Nearest(x) else -Nearest(-x)
  }

  /** math.Round: the nearest integer, ties away from zero. */
  function RoundHalfAway(x: real): int {
    if x < 0.0 then -((-x + 0.5).Floor) else (x + 0.5).Floor
  }

  lemma {:induction false} HalfUnit(x: real)
    requires 0.0 < x < TWO53
    ensures -0.5 <= Nearest(x) - x <= 0.5
    decreases if x < TWO52 then (TWO53 / x).Floor else 0
  {
    if x < TWO52 {
      ShrinksWhenDoubled(x);
      HalfUnit(2.0 * x);
    }
  }

  /** Integers below 2^53 are exact. */
  lemma {:induction false} IntegersExact(x: real)
    requires 0.0 < x < TWO53 && x == x.Floor as real
    ensures Nearest(x) == x
    decreases if x < TWO52 then (TWO53 / x).Floor else 0
  {
    if x < TWO52 {
      ShrinksWhenDoubled(x);
      assert 2.0 * x == (2 * x.Floor) as real;
      IntegersExact(2.0 * x);
    }
  }

  /** The relative error is at most 2^-53, whatever the magnitude. */
  lemma {:induction false} RelativeError(x: real)
    requires 0.0 < x
    ensures -x <= TWO53 * (Nearest(x) - x) <= x
    decreases if x < TWO52 then (TWO53 / x).Floor else if x >= TWO53 then x.Floor else 0
  {
    if x < TWO52 {
      ShrinksWhenDoubled(x);
      RelativeError(2.0 * x);
    } else if x >= TWO53 {
      RelativeError(x / 2.0);
    } else {
      HalfUnit(x);
    }
  }

  lemma BelowTwo48(x: real)
    requires 0.0 < x < TWO52 / 16.0
    ensures -1.0 <= 64.0 * (Nearest(x) - x) <= 1.0
  {
    var y := 32.0 * x;
    HalfUnit(y);
    assert Nearest(16.0 * x) == Nearest(y) / 2.0;
    assert Nearest(8.0 * x) == Nearest(16.0 * x) / 2.0;
    assert Nearest(4.0 * x) == Nearest(8.0 * x) / 2.0;
    assert Nearest(2.0 * x) == Nearest(4.0 * x) / 2.0;
  }

  lemma BelowTwo49(x: real)
    requires TWO52 / 16.0 <= x < TWO53 / 16.0
    ensures Nearest(x) == RoundHalfEven(16.0 * x) as real / 16.0
  {
    var y := 16.0 * x;
    assert Nearest(8.0 * x) == Nearest(y) / 2.0;
    assert Nearest(4.0 * x) == Nearest(8.0 * x) / 2.0;
    assert Nearest(2.0 * x) == Nearest(4.0 * x) / 2.0;
  }

  // ---- Rounding keeps order ----

  lemma HalfEvenMonotone(x: real, y: real)
    requires x <= y
    ensures x.Floor <= RoundHalfEven(x) <= RoundHalfEven(y) <= y.Floor + 1
  {
    if x.Floor < y.Floor {
      assert RoundHalfEven(x) <= x.Floor + 1 <= y.Floor <= RoundHalfEven(y);
    }
  }

  lemma HalvesOf(x: real)
    requires 0.0 < x < TWO52
    ensures Nearest(x) == Nearest(2.0 * x) / 2.0
  {
  }

  lemma DoublesOf(x: real)
    requires TWO53 <= x
    ensures Nearest(x) == 2.0 * Nearest(x / 2.0)
  {
  }

  // With 53 bits before the point, rounding is to the integers and keeps the order.
  lemma MiddleMonotone(x: real, y: real)
    requires TWO52 <= x <= y < TWO53
    ensures TWO52 <= Nearest(x) <= Nearest(y) <= TWO53
  {
    assert Nearest(x) == RoundHalfEven(x) as real && Nearest(y) == RoundHalfEven(y) as real;
    HalfEvenMonotone(x, y);
    assert 4503599627370496 <= x.Floor && y.Floor + 1 <= 9007199254740992;
  }

  lemma {:induction false} BelowMonotone(x: real, y: real)
    requires 0.0 < x <= y < TWO52
    ensures 0.0 <= Nearest(x) <= Nearest(y) <= TWO52
    decreases (TWO53 / x).Floor
  {
    HalvesOf(x);
    HalvesOf(y);
    ShrinksWhenDoubled(x);
    if 2.0 * y < TWO52 {
      BelowMonotone(2.0 * x, 2.0 * y);
    } else {
      MiddleMonotone(2.0 * y, 2.0 * y);
      if 2.0 * x < TWO52 {
        BelowMonotone(2.0 * x, 2.0 * x);
      } else {
        MiddleMonotone(2.0 * x, 2.0 * y);
      }
    }
  }

  lemma {:induction false} AboveMonotone(x: real, y: real)
    requires TWO53 <= x <= y
    ensures TWO53 <= Nearest(x) <= Nearest(y)
    decreases y.Floor
  {
    DoublesOf(x);
    DoublesOf(y);
    if x / 2.0 >= TWO53 {
      AboveMonotone(x / 2.0, y / 2.0);
    } else {
      MiddleMonotone(x / 2.0, x / 2.0);
      if y / 2.0 >= TWO53 {
        AboveMonotone(y / 2.0, y / 2.0);
      } else {
        MiddleMonotone(x / 2.0, y / 2.0);
      }
    }
  }

  lemma NearestMonotone(x: real, y: real)
    requires 0.0 < x <= y
    ensures 0.0 <= Nearest(x) <= Nearest(y)
  {
    if y < TWO52 {
      BelowMonotone(x, y);
    } else if x >= TWO53 {
      AboveMonotone(x, y);
    } else {
      if x < TWO52 {
        BelowMonotone(x, x);
      } else {
        MiddleMonotone(x, x);
      }
      if y >= TWO53 {
        AboveMonotone(y, y);
      } else if x >= TWO52 {
        MiddleMonotone(x, y);
      } else {
        MiddleMonotone(y, y);
      }
    }
  }

  /** A larger number never rounds to a smaller one. */
  lemma RoundedMonotone(x: real, y: real)
    requires x <= y
    ensures Rounded(x) <= Rounded(y)
  {
    if x > 0.0 {
      NearestMonotone(x, y);
    } else if y < 0.0 {
      NearestMonotone(-y, -x);
    } else {
      if x < 0.0 {
        NearestMonotone(-x, -x);
      }
      if y > 0.0 {
        NearestMonotone(y, y);
      }
    }
  }

  // ---- How far neighbouring numbers can be rounded apart ----

  lemma HalfEvenNear(x: real)
    ensures -0.5 <= RoundHalfEven(x) as real - x <= 0.5
  {
  }

  // Numbers of more than 53 bits, on the grids they are rounded to.
  lemma OnGrid(x: real)
    ensures 2.0 * TWO52 <= x < 2.0 * TWO53 ==> Nearest(x) == 2.0 * RoundHalfEven(x / 2.0) as real
    ensures 4.0 * TWO52 <= x < 4.0 * TWO53 ==> Nearest(x) == 4.0 * RoundHalfEven(x / 4.0) as real
    ensures 8.0 * TWO52 <= x < 8.0 * TWO53 ==> Nearest(x) == 8.0 * RoundHalfEven(x / 8.0) as real
    ensures 16.0 * TWO52 <= x < 16.0 * TWO53 ==> Nearest(x) == 16.0 * RoundHalfEven(x / 16.0) as real
  {
    if x >= TWO53 {
      DoublesOf(x);
    }
    if x / 2.0 >= TWO53 {
      DoublesOf(x / 2.0);
    }
    if x / 4.0 >= TWO53 {
      DoublesOf(x / 4.0);
    }
    if x / 8.0 >= TWO53 {
      DoublesOf(x / 8.0);
    }
  }

  // Half the grid is the most a number is moved, up to 2^57.
  lemma MovedAtMost(x: real)
    requires 0.0 < x
    ensures x < 2.0 * TWO53 ==> -1.0 <= Nearest(x) - x <= 1.0
    ensures x < 4.0 * TWO53 ==> -2.0 <= Nearest(x) - x <= 2.0
    ensures x < 8.0 * TWO53 ==> -4.0 <= Nearest(x) - x <= 4.0
    ensures x < 16.0 * TWO53 ==> -8.0 <= Nearest(x) - x <= 8.0
  {
    if x < TWO53 {
      HalfUnit(x);
    } else {
      OnGrid(x);
      HalfEvenNear(x / 2.0);
      HalfEvenNear(x / 4.0);
      HalfEvenNear(x / 8.0);
      HalfEvenNear(x / 16.0);
    }
  }

  // Where the grid has steps of 4.
  lemma IntegerStepHigh(x: real)
    requires 4.0 * TWO52 - 1.0 <= x && x + 1.0 < 4.0 * TWO53
    ensures Nearest(x + 1.0) <= Nearest(x) + 4.0
  {
    var y := x + 1.0;
    OnGrid(y);
    HalfEvenNear(y / 4.0);
    if x >= 4.0 * TWO52 {
      OnGrid(x);
      HalfEvenNear(x / 4.0);
      assert RoundHalfEven(y / 4.0) <= RoundHalfEven(x / 4.0) + 1;
    } else {
      MovedAtMost(x);
      assert RoundHalfEven(y / 4.0) <= 4503599627370496;
    }
  }

  /** Up to 2^55 two neighbouring integers are rounded to numbers at most 4 apart. */
  lemma IntegerStep(x: real)
    requires 0.0 < x <= 4.0 * TWO53 - 1.0
    ensures Nearest(x + 1.0) <= Nearest(x) + 4.0
  {
    if x + 1.0 < 2.0 * TWO53 {
      MovedAtMost(x);
      MovedAtMost(x + 1.0);
    } else if x + 1.0 < 4.0 * TWO53 {
      IntegerStepHigh(x);
    } else {
      OnGrid(x + 1.0);
      MovedAtMost(x);
      assert RoundHalfEven(TWO52) == 4503599627370496;
    }
  }

  // ---- The same for three times such numbers ----

  lemma StepBelowTwo55(x: real, y: real)
    requires 0.0 < x <= y <= x + 12.0 && y < 4.0 * TWO53
    ensures Nearest(y) <= Nearest(x) + 16.0
  {
    MovedAtMost(x);
    MovedAtMost(y);
  }

  lemma StepBelowTwo56(x: real, y: real)
    requires 0.0 < x <= y <= x + 12.0 && 8.0 * TWO52 <= y < 8.0 * TWO53
    ensures Nearest(y) <= Nearest(x) + 16.0
  {
    OnGrid(x);
    OnGrid(y);
    HalfEvenNear(x / 8.0);
    HalfEvenNear(x / 4.0);
    HalfEvenNear(y / 8.0);
    var j := RoundHalfEven(y / 8.0);
    if x >= 8.0 * TWO52 {
      var i := RoundHalfEven(x / 8.0);
      assert j <= i + 2;
    } else {
      var i := RoundHalfEven(x / 4.0);
      assert 2 * j <= i + 4;
    }
  }

  lemma StepBelowTwo57(x: real, y: real)
    requires 0.0 < x <= y <= x + 12.0 && 16.0 * TWO52 <= y < 16.0 * TWO53
    ensures Nearest(y) <= Nearest(x) + 16.0
  {
    OnGrid(x);
    OnGrid(y);
    HalfEvenNear(y / 16.0);
    var j := RoundHalfEven(y / 16.0);
    if x >= 16.0 * TWO52 {
      HalfEvenNear(x / 16.0);
      assert j <= RoundHalfEven(x / 16.0) + 1;
    } else {
      HalfEvenNear(x / 8.0);
      assert j <= 4503599627370497;
      if j == 4503599627370497 {
        HalfEvenMonotone(9007199254740991.5, x / 8.0);
      }
    }
  }

  /** Numbers at most 12 apart, up to 2^57, are rounded to numbers at most 16 apart. */
  lemma ProductStep(x: real, y: real)
    requires 0.0 < x <= y <= x + 12.0 && y < 16.0 * TWO53
    ensures Nearest(y) <= Nearest(x) + 16.0
  {
    if y < 4.0 * TWO53 {
      StepBelowTwo55(x, y);
    } else if y < 8.0 * TWO53 {
      StepBelowTwo56(x, y);
    } else {
      StepBelowTwo57(x, y);
    }
  }

  // ---- And for quotients, rounded once more to an integer ----

  // Numbers of less than 53 bits before the point: the grids of 1/2 and 1/4, and what holds below them.
  lemma OnFineGrid(x: real)
    requires 0.0 < x < TWO52
    ensures TWO52 <= 2.0 * x ==> 2.0 * Nearest(x) == RoundHalfEven(2.0 * x) as real
    ensures 2.0 * x < TWO52 <= 4.0 * x ==> 4.0 * Nearest(x) == RoundHalfEven(4.0 * x) as real
    ensures 2.0 * x < TWO52 ==> -1.0 <= 8.0 * (Nearest(x) - x) <= 1.0
  {
    HalvesOf(x);
    if 2.0 * x < TWO52 {
      HalvesOf(2.0 * x);
      HalfUnit(4.0 * x);
    }
  }

  lemma QuotientStepLow(x: real, y: real)
    requires 0.0 < x <= y && 23.0 * (y - x) <= 16.0 && 2.0 * y < TWO52
    ensures RoundHalfAway(Nearest(y)) <= RoundHalfAway(Nearest(x)) + 1
  {
    OnFineGrid(x);
    OnFineGrid(y);
    NearestMonotone(x, y);
  }

  lemma QuotientStepMiddle(x: real, y: real)
    requires 0.0 < x <= y && 23.0 * (y - x) <= 16.0 && TWO52 <= 2.0 * y && y < TWO52
    ensures RoundHalfAway(Nearest(y)) <= RoundHalfAway(Nearest(x)) + 1
  {
    OnFineGrid(x);
    OnFineGrid(y);
    NearestMonotone(x, y);
    var g := RoundHalfAway(Nearest(x));
    var k := RoundHalfEven(2.0 * y);
    HalfEvenNear(2.0 * y);
    HalfEvenNear(2.0 * x);
    HalfEvenNear(4.0 * x);
    assert Nearest(x) < g as real + 0.5;
    if TWO52 <= 2.0 * x {
      assert RoundHalfEven(2.0 * x) <= 2 * g;
    } else {
      assert RoundHalfEven(4.0 * x) <= 4 * g + 1;
    }
    assert k <= 2 * g + 2;
  }

  lemma RoundHalfAwayNear(c: real)
    requires 0.0 <= c
    ensures c - 0.5 < RoundHalfAway(c) as real <= c + 0.5
  {
  }

  lemma QuotientStepHigh(x: real, y: real)
    requires 0.0 < x <= y && 23.0 * (y - x) <= 16.0 && TWO52 <= y < TWO53
    ensures RoundHalfAway(Nearest(y)) <= RoundHalfAway(Nearest(x)) + 1
  {
    HalfEvenNear(y);
    NearestMonotone(x, y);
    WholeRounded(y);
    if x < TWO52 {
      OnFineGrid(x);
      HalfEvenNear(2.0 * x);
      RoundHalfAwayNear(Nearest(x));
    } else {
      HalfEvenNear(x);
      WholeRounded(x);
    }
  }

  lemma WholeRounded(x: real)
    requires TWO52 <= x < TWO53
    ensures RoundHalfAway(Nearest(x)) == RoundHalfEven(x)
  {
    var n := RoundHalfEven(x);
    assert Nearest(x) == n as real && n >= 0;
  }

  /** Quotients at most 16/23 apart, below 2^53, come out at most one integer apart. */
  lemma QuotientStep(x: real, y: real)
    requires 0.0 < x <= y < TWO53 && 23.0 * (y - x) <= 16.0
    ensures RoundHalfAway(Nearest(y)) <= RoundHalfAway(Nearest(x)) + 1
  {
    if 2.0 * y < TWO52 {
      QuotientStepLow(x, y);
    } else if y < TWO52 {
      QuotientStepMiddle(x, y);
    } else {
      QuotientStepHigh(x, y);
    }
  }
}

/** Python's `round(x, digits)` as an abstract function: it moves a number by at most half a grid
step, keeps the order and leaves its own results alone.  The grid is what it leaves alone. */
module Rounding {

  predicate OnGrid(round: real -> real, x: real) { round(x) == x }

  ghost predicate IsRounding(round: real -> real, half: real) {
    && (forall x :: OnGrid(round, round(x)))
    && (forall x :: -half <= round(x) - x <= half)
    && (forall x, y :: x <= y ==> round(x) <= round(y))
  }

  predicate SubtractsAt(round: real -> real, x: real, y: real) {
    OnGrid(round, x) && OnGrid(round, y) ==> OnGrid(round, x - y)
  }

  /** Differences of grid values are grid values. */
  ghost predicate Subtracts(round: real -> real) {
    forall x, y :: SubtractsAt(round, x, y)
  }

  const HALF_CENT := 0.005

  /** Half a step of four-digit rounding. */
  const HALF_STEP := 0.00005

  function HalfUpCents(x: real): real { (x * 100.0 + 0.5).Floor as real / 100.0 }

  function HalfUpFourDigits(x: real): real { (x * 10000.0 + 0.5).Floor as real / 10000.0 }

  /** The assumptions are consistent: rounding half up meets them, on the decimal grids. */
  lemma HalfUpIsRounding()
    ensures IsRounding(HalfUpCents, HALF_CENT) && Subtracts(HalfUpCents)
    ensures IsRounding(HalfUpFourDigits, HALF_STEP) && Subtracts(HalfUpFourDigits)
    ensures forall x :: OnGrid(HalfUpFourDigits, x) <==> (x * 10000.0).Floor as real == x * 10000.0
  {
    forall x: real { CentsAt(x); }
    forall x: real, y: real | x <= y { CentsOrder(x, y); }
    forall x: real, y: real ensures SubtractsAt(HalfUpCents, x, y) { CentsSubtract(x, y); }
    forall x: real { FourDigitsAt(x); }
    forall x: real, y: real | x <= y { FourDigitsOrder(x, y); }
    forall x: real, y: real ensures SubtractsAt(HalfUpFourDigits, x, y) { FourDigitsSubtract(x, y); }
  }

  lemma FloorIs(x: real, n: int)
    requires n as real <= x < n as real + 1.0
    ensures x.Floor == n
  {
  }

  lemma CentsAt(x: real)
    ensures HalfUpCents(HalfUpCents(x)) == HalfUpCents(x) && -HALF_CENT <= HalfUpCents(x) - x <= HALF_CENT
    ensures HalfUpCents(x) == x <==> (x * 100.0).Floor as real == x * 100.0
  {
    var h, n := HalfUpCents(x), (x * 100.0 + 0.5).Floor;
    assert h * 100.0 == n as real;
    FloorIs(h * 100.0 + 0.5, n);
    if (x * 100.0).Floor as real == x * 100.0 {
      FloorIs(x * 100.0 + 0.5, (x * 100.0).Floor);
    } else if h == x {
      FloorIs(x * 100.0, n);
    }
  }

  lemma CentsOrder(x: real, y: real)
    requires x <= y
    ensures HalfUpCents(x) <= HalfUpCents(y)
  {
    assert (x * 100.0 + 0.5).Floor <= (y * 100.0 + 0.5).Floor;
  }

  lemma CentsSubtract(x: real, y: real)
    ensures SubtractsAt(HalfUpCents, x, y)
  {
    if HalfUpCents(x) == x && HalfUpCents(y) == y {
      CentsAt(x);
      CentsAt(y);
      FloorIs((x - y) * 100.0, (x * 100.0).Floor - (y * 100.0).Floor);
      CentsAt(x - y);
    }
  }

  lemma FourDigitsAt(x: real)
    ensures HalfUpFourDigits(HalfUpFourDigits(x)) == HalfUpFourDigits(x)
    ensures -HALF_STEP <= HalfUpFourDigits(x) - x <= HALF_STEP
    ensures HalfUpFourDigits(x) == x <==> (x * 10000.0).Floor as real == x * 10000.0
  {
    var h, n := HalfUpFourDigits(x), (x * 10000.0 + 0.5).Floor;
    assert h * 10000.0 == n as real;
    FloorIs(h * 10000.0 + 0.5, n);
    if (x * 10000.0).Floor as real == x * 10000.0 {
      FloorIs(x * 10000.0 + 0.5, (x * 10000.0).Floor);
    } else if h == x {
      FloorIs(x * 10000.0, n);
    }
  }

  lemma FourDigitsOrder(x: real, y: real)
    requires x <= y
    ensures HalfUpFourDigits(x) <= HalfUpFourDigits(y)
  {
    assert (x * 10000.0 + 0.5).Floor <= (y * 10000.0 + 0.5).Floor;
  }

  lemma FourDigitsSubtract(x: real, y: real)
    ensures SubtractsAt(HalfUpFourDigits, x, y)
  {
    if HalfUpFourDigits(x) == x && HalfUpFourDigits(y) == y {
      FourDigitsAt(x);
      FourDigitsAt(y);
      FloorIs((x - y) * 10000.0, (x * 10000.0).Floor - (y * 10000.0).Floor);
      FourDigitsAt(x - y);
    }
  }
}

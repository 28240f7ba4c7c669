/** The execution gas price: a bounded relative step per block, shared by both updaters. */
module GasPriceExec {
  import opened MachineInts

  /** The step is a percentage of the price, rounded down. */
  function ChangeAmount(price: u64, percent: u64): (r: u64) {
    SatU64(price * percent) / 100
  }

  /** Fullness of a block in percent, rounded down. */
  function FullnessPercent(used: u64, capacity: u64): (r: u64)
    requires capacity > 0
  {
    var scaled := SatU64(used * 100);
    DivisionShrinks(scaled, capacity);
    scaled / capacity
  }

  lemma DivisionShrinks(a: nat, b: nat)
    requires b > 0
    ensures 0 <= a / b <= a
  {
    var q := a / b;
    assert a == q * b + a % b;
    if q < 0 {
      Scale(q, -1, b);
    } else {
      Scale(1, b, q);
    }
  }

  /** A block reaches a fullness threshold when its gas does, save for saturation. */
  lemma FullnessReachesIff(used: u64, capacity: u64, threshold: nat)
    requires capacity > 0
    ensures FullnessPercent(used, capacity) >= threshold <==> SatU64(used * 100) >= threshold * capacity
  {
    var scaled := SatU64(used * 100);
    var q := scaled / capacity;
    assert q * capacity <= scaled < q * capacity + capacity;
    if q >= threshold {
      Scale(threshold, q, capacity);
    } else {
      Scale(q + 1, threshold, capacity);
      SuccessorProduct(q, capacity);
    }
  }

  lemma SuccessorProduct(q: int, c: int)
    ensures (q + 1) * c == q * c + c
  {}

  function NextPrice(price: u64, min: u64, percent: u64, rise: bool): (r: u64) {
    var change := ChangeAmount(price, percent);
    Max(min, if rise then SatU64(price + change) else SatU64(price - change))
  }

  // ---------------------------------------------------------------------------------------
  // One step
  // ---------------------------------------------------------------------------------------

  /**
   Despite rounding and saturation a step stays within the percentage on both sides, and from
   above the minimum it goes up or down as asked and never below the minimum.
   */
  lemma NextPriceBounds(price: u64, min: u64, percent: u64, rise: bool)
    requires price >= min
    ensures var r := NextPrice(price, min, percent, rise);
      && min <= r
      && r * 100 <= price * (100 + percent)
      && r * 100 >= price * (100 - percent)
      && (rise ==> r >= price)
      && (!rise ==> r <= price)
  {
    var change := ChangeAmount(price, percent);
    assert change * 100 <= SatU64(price * percent) <= price * percent;
    Distributes(price, percent);
  }

  lemma Distributes(price: nat, percent: nat)
    ensures price * (100 + percent) == price * 100 + price * percent
    ensures price * (100 - percent) == price * 100 - price * percent
    ensures price * percent >= 0
  {}

  /**
   One step told without its division: `next` is `price` moved by `percent` hundredths of it,
   rounded down, up or down as `rise` says, unless it runs into the largest number or `min`.
   */
  ghost predicate PriceStep(price: u64, next: u64, min: u64, percent: nat, rise: bool) {
    var hundredths := Min(price * percent, 0xFFFF_FFFF_FFFF_FFFF);
    && next >= min
    && (if rise then
          || 100 * (next - price) <= hundredths < 100 * (next - price) + 100
          || (next == 0xFFFF_FFFF_FFFF_FFFF && hundredths >= 100 * (next - price))
          || (next == min && hundredths < 100 * (min - price) + 100)
        else
          || 100 * (price - next) <= hundredths < 100 * (price - next) + 100
          || (next == min && hundredths >= 100 * (price - min)))
  }

  /** Every step is such a step, whatever saturates. */
  lemma NextPriceIsExact(price: u64, min: u64, percent: u64, rise: bool)
    ensures PriceStep(price, NextPrice(price, min, percent, rise), min, percent, rise)
  {
    ProductSign(price, percent);
    assert SatU64(price * percent) == Min(price * percent, 0xFFFF_FFFF_FFFF_FFFF);
    var change := ChangeAmount(price, percent);
    assert 100 * change <= SatU64(price * percent) < 100 * change + 100;
  }

  // ---------------------------------------------------------------------------------------
  // Many steps
  // ---------------------------------------------------------------------------------------

  /** A step up from `start` or above adds at least what a percentage of `start` comes to. */
  lemma StepGrows(price: u64, next: u64, min: u64, percent: nat, start: u64, g: nat)
    requires PriceStep(price, next, min, percent, true) && price >= min && price >= start
    requires 100 * g <= Min(start * percent, 0xFFFF_FFFF_FFFF_FFFF)
    ensures next >= price && next >= Min(0xFFFF_FFFF_FFFF_FFFF, price + g)
  {
    Scale(start, price, percent);
  }

  /** A step down from `floor` or above takes off at least what a percentage of `floor` comes to. */
  lemma StepFalls(price: u64, next: u64, min: u64, percent: nat, floor: u64, g: nat)
    requires PriceStep(price, next, min, percent, false) && price >= min && floor >= min
    requires 100 * g <= Min(floor * percent, 0xFFFF_FFFF_FFFF_FFFF)
    ensures next <= price && next <= Max(floor, price - g)
  {
    ProductSign(price, percent);
    if price >= floor {
      Scale(floor, price, percent);
    }
  }

  function Pow(base: int, n: nat): (r: int) {
    if n == 0 then 1 else base * Pow(base, n - 1)
  }

  lemma {:induction false} PowPositive(base: int, n: nat)
    requires base >= 0
    ensures Pow(base, n) >= 0
    ensures base > 0 ==> Pow(base, n) > 0
  {
    if n > 0 {
      PowPositive(base, n - 1);
      ProductSign(base, Pow(base, n - 1));
    }
  }

  lemma ProductSign(a: int, b: int)
    requires a >= 0 && b >= 0
    ensures a * b >= 0 && (a > 0 && b > 0 ==> a * b > 0)
  {}

  lemma Scale(a: int, b: int, x: int)
    requires a <= b && x >= 0
    ensures a * x <= b * x
  {}

  /** `price` lies within `n` compounded steps of `start`. */
  ghost predicate Compounded(start: nat, price: nat, percent: nat, n: nat) {
    && price * Pow(100, n) <= start * Pow(100 + percent, n)
    && (percent <= 100 ==> price * Pow(100, n) >= start * Pow(100 - percent, n))
  }

  lemma CompoundUpper(start: nat, price: nat, next: nat, percent: nat, n: nat)
    requires price * Pow(100, n) <= start * Pow(100 + percent, n)
    requires next * 100 <= price * (100 + percent)
    ensures next * Pow(100, n + 1) <= start * Pow(100 + percent, n + 1)
  {
    var x, y, q := Pow(100, n), Pow(100 + percent, n), 100 + percent;
    PowPositive(100, n);
    calc {
      next * Pow(100, n + 1);
    ==  { assert Pow(100, n + 1) == 100 * x; }
      next * (100 * x);
    ==
      (next * 100) * x;
    <=  { Scale(next * 100, price * q, x); }
      (price * q) * x;
    ==
      (price * x) * q;
    <=  { Scale(price * x, start * y, q); }
      (start * y) * q;
    ==
      start * (q * y);
    ==  { assert Pow(q, n + 1) == q * y; }
      start * Pow(q, n + 1);
    }
  }

  lemma CompoundLower(start: nat, price: nat, next: nat, percent: nat, n: nat)
    requires percent <= 100
    requires price * Pow(100, n) >= start * Pow(100 - percent, n)
    requires next * 100 >= price * (100 - percent)
    ensures next * Pow(100, n + 1) >= start * Pow(100 - percent, n + 1)
  {
    var x, y, q := Pow(100, n), Pow(100 - percent, n), 100 - percent;
    PowPositive(100, n);
    calc {
      next * Pow(100, n + 1);
    ==  { assert Pow(100, n + 1) == 100 * x; }
      next * (100 * x);
    ==
      (next * 100) * x;
    >=  { Scale(price * q, next * 100, x); }
      (price * q) * x;
    ==
      (price * x) * q;
    >=  { Scale(start * y, price * x, q); }
      (start * y) * q;
    ==
      start * (q * y);
    ==  { assert Pow(q, n + 1) == q * y; }
      start * Pow(q, n + 1);
    }
  }

  lemma CompoundStep(start: nat, price: u64, min: u64, percent: u64, rise: bool, n: nat)
    requires price >= min && Compounded(start, price, percent, n)
    ensures Compounded(start, NextPrice(price, min, percent, rise), percent, n + 1)
    ensures NextPrice(price, min, percent, rise) >= min
  {
    NextPriceBounds(price, min, percent, rise);
    CompoundUpper(start, price, NextPrice(price, min, percent, rise), percent, n);
    if percent <= 100 {
      CompoundLower(start, price, NextPrice(price, min, percent, rise), percent, n);
    }
  }

  lemma CompoundStart(price: nat, percent: nat)
    ensures Compounded(price, price, percent, 0)
  {}
}

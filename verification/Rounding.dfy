/** Exact conversions between weights and quantities, and conservative rounding to whole lots. */
module Rounding {

  function Min(a: real, b: real): real {
    if a <= b then a else b
  }

  function Max(a: real, b: real): real {
    if a <= b then b else a
  }

  /** `x` re-expressed in another unit: a weight times NAV over price, or a quantity times price over NAV. */
  function Convert(x: real, num: real, den: real): real
    requires 0.0 < den
  {
    x * num / den
  }

  function Lots(n: int, lot: real): real {
    n as real * lot
  }

  ghost predicate WholeLots(x: real, lot: real) {
    exists n: nat :: x == Lots(n, lot)
  }

  function Ceiling(x: real): int {
    -((-x).Floor)
  }

  /** Increases round down to whole lots; decreases round up, but never beyond what is held. */
  function RoundDelta(delta: real, lot: real, current: real): real
    requires 0.0 < lot
  {
    if 0.0 <= delta then Lots((delta / lot).Floor, lot)
    else -Min(current, Lots(Ceiling(-delta / lot), lot))
  }

  lemma ScaleUp(a: real, b: real, k: real)
    requires 0.0 <= k && a <= b
    ensures a * k <= b * k
  {
    assert 0.0 <= (b - a) * k;
  }

  lemma ScaleUpStrictly(a: real, b: real, k: real)
    requires 0.0 < k && a < b
    ensures a * k < b * k
  {
    assert 0.0 < (b - a) * k;
  }

  lemma DivideMonotone(a: real, b: real, k: real)
    requires 0.0 < k && a <= b
    ensures a / k <= b / k
  {
    var x, y := a / k, b / k;
    assert x * k == a && y * k == b;
    if y < x {
      ScaleUpStrictly(y, x, k);
    }
  }

  lemma ConvertMonotone(a: real, b: real, num: real, den: real)
    requires 0.0 < num && 0.0 < den && a <= b
    ensures Convert(a, num, den) <= Convert(b, num, den)
  {
    ScaleUp(a, b, num);
    DivideMonotone(a * num, b * num, den);
  }

  lemma ConvertAdd(a: real, b: real, num: real, den: real)
    requires 0.0 < den
    ensures Convert(a + b, num, den) == Convert(a, num, den) + Convert(b, num, den)
  {
    assert (a + b) * num == a * num + b * num;
  }

  lemma ConvertScale(c: real, x: real, num: real, den: real)
    requires 0.0 < den
    ensures Convert(c * x, num, den) == c * Convert(x, num, den)
  {
    assert c * x * num == c * (x * num);
  }

  lemma ConvertZero(num: real, den: real)
    requires 0.0 < den
    ensures Convert(0.0, num, den) == 0.0
  {
  }

  lemma ConvertBack(x: real, num: real, den: real)
    requires 0.0 < num && 0.0 < den
    ensures Convert(Convert(x, num, den), den, num) == x
  {
    assert Convert(x, num, den) * den == x * num;
  }

  lemma ConvertIs(x: real, num: real, den: real)
    requires 0.0 < den
    ensures Convert(x, num, den) * den == x * num
  {
  }

  lemma ConvertStrict(a: real, b: real, num: real, den: real)
    requires 0.0 < num && 0.0 < den && a < b
    ensures Convert(a, num, den) < Convert(b, num, den)
  {
    ConvertMonotone(a, b, num, den);
    ConvertBack(a, num, den);
    ConvertBack(b, num, den);
  }

  lemma OneMore(x: real, k: real)
    ensures (x + 1.0) * k == x * k + k
  {
  }

  lemma LotsUpTo(n: int, q: real, lot: real)
    requires 0.0 < lot
    ensures n as real <= q ==> Lots(n, lot) <= q * lot
    ensures q <= n as real ==> q * lot <= Lots(n, lot)
  {
    if n as real <= q {
      ScaleUp(n as real, q, lot);
    }
    if q <= n as real {
      ScaleUp(q, n as real, lot);
    }
  }

  lemma LotsJustAbove(n: int, q: real, lot: real)
    requires 0.0 < lot && q < n as real + 1.0
    ensures q * lot < Lots(n, lot) + lot
  {
    ScaleUpStrictly(q, n as real + 1.0, lot);
    OneMore(n as real, lot);
  }

  lemma LotsJustBelow(n: int, q: real, lot: real)
    requires 0.0 < lot && n as real < q + 1.0
    ensures Lots(n, lot) < q * lot + lot
  {
    ScaleUpStrictly(n as real, q + 1.0, lot);
    OneMore(q, lot);
  }

  lemma LotsBracket(q: real, lot: real)
    requires 0.0 < lot && 0.0 <= q
    ensures 0 <= q.Floor && 0.0 <= Lots(q.Floor, lot) <= q * lot < Lots(q.Floor, lot) + lot
    ensures 0 <= Ceiling(q) && q * lot <= Lots(Ceiling(q), lot) < q * lot + lot
    ensures 0.0 < q ==> 1 <= Ceiling(q)
  {
    assert (-q).Floor as real <= -q < (-q).Floor as real + 1.0;
    LotsUpTo(q.Floor, q, lot);
    LotsJustAbove(q.Floor, q, lot);
    ScaleUp(0.0, q.Floor as real, lot);
    LotsUpTo(Ceiling(q), q, lot);
    LotsJustBelow(Ceiling(q), q, lot);
  }

  lemma QuotientOf(delta: real, lot: real)
    requires 0.0 < lot && 0.0 <= delta
    ensures delta / lot * lot == delta && 0.0 <= delta / lot && (0.0 < delta ==> 0.0 < delta / lot)
  {
    DivideMonotone(0.0, delta, lot);
  }

  /** A non-negative delta becomes the largest whole number of lots within it. */
  lemma RoundsDownToLots(delta: real, lot: real, current: real)
    requires 0.0 <= delta && 0.0 < lot
    ensures var r := RoundDelta(delta, lot, current);
            0.0 <= r <= delta < r + lot && WholeLots(r, lot)
  {
    QuotientOf(delta, lot);
    LotsBracket(delta / lot, lot);
    var n: nat := (delta / lot).Floor;
    assert RoundDelta(delta, lot, current) == Lots(n, lot);
  }

  lemma OneLotAtLeast(n: int, lot: real)
    requires 1 <= n && 0.0 < lot
    ensures lot <= Lots(n, lot)
  {
    ScaleUp(1.0, n as real, lot);
  }

  /** A negative delta removes at least what was asked, less than one lot more, and never too much: the
      holding, or the fewest lots that cover what was asked. */
  lemma RoundsAwayFromHolding(delta: real, lot: real, current: real)
    requires delta < 0.0 && 0.0 < lot && -delta <= current
    ensures var r := RoundDelta(delta, lot, current);
            && -current <= r <= delta && delta - lot < r
            && (r == -current || WholeLots(-r, lot))
            && r <= -Min(current, lot)
            && forall m: nat :: -delta <= Lots(m, lot) ==> -r <= Lots(m, lot)
  {
    QuotientOf(-delta, lot);
    LotsBracket(-delta / lot, lot);
    var n: nat := Ceiling(-delta / lot);
    OneLotAtLeast(n, lot);
    assert RoundDelta(delta, lot, current) == -Min(current, Lots(n, lot));
    hide RoundDelta, Ceiling;
    forall m: nat | -delta <= Lots(m, lot) ensures Lots(n, lot) <= Lots(m, lot) {
      LeastCover(-delta, lot, m);
    }
  }

  /** No smaller number of lots than the quotient's ceiling covers the quantity. */
  lemma LeastCover(quantity: real, lot: real, m: nat)
    requires 0.0 < lot && quantity <= Lots(m, lot)
    ensures Lots(Ceiling(quantity / lot), lot) <= Lots(m, lot)
  {
    var x := quantity / lot;
    assert x * lot == quantity;
    if m as real < x {
      ScaleUpStrictly(m as real, x, lot);
    }
    CeilingAtMost(x, m);
    ScaleUp(Ceiling(x) as real, m as real, lot);
    hide Ceiling;
  }

  lemma CeilingAtMost(x: real, m: int)
    requires x <= m as real
    ensures Ceiling(x) <= m
  {
    assert (-x).Floor as real <= -x < (-x).Floor as real + 1.0;
  }

  lemma FloorMonotone(a: real, b: real)
    requires a <= b
    ensures a.Floor <= b.Floor
  {
  }

  /** Asking for more never books less. */
  lemma RoundMonotone(a: real, b: real, lot: real, current: real)
    requires 0.0 <= a <= b && 0.0 < lot
    ensures RoundDelta(a, lot, current) <= RoundDelta(b, lot, current)
  {
    DivideMonotone(a, b, lot);
    FloorMonotone(a / lot, b / lot);
    ScaleUp((a / lot).Floor as real, (b / lot).Floor as real, lot);
  }

  lemma RoundZero(lot: real, current: real)
    requires 0.0 < lot
    ensures RoundDelta(0.0, lot, current) == 0.0
  {
    assert 0.0 / lot == 0.0;
  }

  lemma DivideAntitone(a: real, k: real, k': real)
    requires 0.0 <= a && 0.0 < k <= k'
    ensures a / k' <= a / k
  {
    var x, x' := a / k, a / k';
    assert x * k == a && x' * k' == a;
    DivideMonotone(0.0, a, k');
    ScaleUp(k, k', x');
    if x < x' {
      ScaleUpStrictly(x, x', k);
    }
  }

  /** As many lots as the quotient's ceiling cover the quantity. */
  lemma LotsCover(quantity: real, lot: real, n: int)
    requires 0.0 < lot && 0.0 <= quantity && Ceiling(quantity / lot) <= n
    ensures quantity <= Lots(n, lot)
  {
    var x := quantity / lot;
    QuotientOf(quantity, lot);
    assert (-x).Floor as real <= -x;
    LotsUpTo(n, x, lot);
  }
}

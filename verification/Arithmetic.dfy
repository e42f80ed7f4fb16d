/** Facts about quotients that the solver does not find alone. */
module Arithmetic {

  lemma FloorDivides(x: real, cost: int)
    requires x >= 0.0 && cost > 0
    ensures (x / cost as real).Floor == x.Floor / cost
  {
    var q, f := x.Floor / cost, x.Floor;
    assert q * cost <= f < (q + 1) * cost;
    assert (q + 1) * cost == q * cost + cost;
    assert f + 1 <= (q + 1) * cost;
    assert (q * cost) as real <= x < ((q + 1) * cost) as real;
    QuotientBetween(x, cost, q);
  }

  lemma QuotientBetween(x: real, cost: int, q: int)
    requires cost > 0 && (q * cost) as real <= x < ((q + 1) * cost) as real
    ensures (x / cost as real).Floor == q
  {
    var d := cost as real;
    assert (q * cost) as real == q as real * d;
    assert ((q + 1) * cost) as real == (q as real + 1.0) * d;
    var y := x / d;
    assert y * d == x;
    if y < q as real {
      ScaleLess(y, q as real, d);
    }
    if y >= q as real + 1.0 {
      ScaleAtMost(q as real + 1.0, y, d);
    }
  }

  lemma ScaleAtMost(a: real, b: real, d: real)
    requires d > 0.0 && a <= b
    ensures a * d <= b * d
  {
  }

  lemma ScaleLess(a: real, b: real, d: real)
    requires d > 0.0 && a < b
    ensures a * d < b * d
  {
  }

  lemma PredecessorQuotient(n: int, d: int)
    requires n > 0 && d > 0
    ensures n / d == (n - 1) / d + if n % d == 0 then 1 else 0
  {
    var q, r := (n - 1) / d, (n - 1) % d;
    assert n == q * d + r + 1;
    if r + 1 == d {
      assert n == (q + 1) * d;
      UniqueQuotient(n, d, q + 1, 0);
    } else {
      UniqueQuotient(n, d, q, r + 1);
    }
  }

  lemma UniqueQuotient(n: int, d: int, q: int, r: int)
    requires d > 0 && n == q * d + r && 0 <= r < d
    ensures n / d == q && n % d == r
  {
    if q > n / d {
      ScaleAtLeast(n / d + 1, q, d);
    } else if q < n / d {
      ScaleAtLeast(q + 1, n / d, d);
    }
  }

  lemma ScaleAtLeast(a: int, b: int, d: int)
    requires d >= 0 && a <= b
    ensures a * d <= b * d
  {
  }

  lemma RealProduct(a: int, b: int)
    ensures (a * b) as real == a as real * b as real
  {
  }

  lemma FloorQuotientBounds(x: real, cost: int)
    requires x >= 0.0 && cost > 0
    ensures 0 <= (x / cost as real).Floor
    ensures ((x / cost as real).Floor * cost) as real <= x < (((x / cost as real).Floor + 1) * cost) as real
  {
    assert x / cost as real * cost as real == x;
    ScaledFloor(x / cost as real, (x / cost as real).Floor, cost, x);
  }

  lemma ScaledFloor(y: real, q: int, cost: int, x: real)
    requires cost > 0 && q as real <= y < q as real + 1.0 && y * cost as real == x
    ensures (q * cost) as real <= x < ((q + 1) * cost) as real
  {
    RealProduct(q, cost);
    RealProduct(q + 1, cost);
    ScaleAtMost(q as real, y, cost as real);
    ScaleLess(y, (q + 1) as real, cost as real);
  }
}

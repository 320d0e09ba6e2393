/** Facts about division that the layout arguments share. */
module Arith {

  // q is the quotient of x by d exactly when x lies in the q-th block of length d.
  lemma Bucket(x: nat, d: nat, q: nat)
    requires d > 0
    ensures x / d == q <==> q * d <= x < q * d + d
  {
    var p := x / d;
    assert p * d <= x < p * d + d;
    if q < p {
      assert (q + 1) * d <= p * d;
    } else if p < q {
      assert (p + 1) * d <= q * d;
    }
  }

  lemma MulMonotone(a: nat, b: nat, d: nat)
    requires a <= b
    ensures a * d <= b * d
  {
    assert b * d - a * d == (b - a) * d;
  }

  lemma DivMonotone(a: nat, b: nat, d: nat)
    requires a <= b && d > 0
    ensures a / d <= b / d
  {
    Bucket(a, d, a / d);
    Bucket(b, d, b / d);
    if b / d < a / d {
      MulMonotone(b / d + 1, a / d, d);
      assert false;
    }
  }

  lemma Regroup(q: nat, a: nat, b: nat)
    ensures q * b * a == q * (a * b) && (q * b + b) * a == q * (a * b) + a * b
  {
  }

  // Dividing twice is dividing by the product.
  lemma DivDiv(x: nat, a: nat, b: nat)
    requires a > 0 && b > 0
    ensures a * b > 0 && x / a / b == x / (a * b)
  {
    var y := x / a;
    var q := y / b;
    Bucket(x, a, y);
    Bucket(y, b, q);
    MulMonotone(q * b, y, a);
    MulMonotone(y + 1, q * b + b, a);
    Regroup(q, a, b);
    assert (y + 1) * a == y * a + a;
    var c := a * b;
    assert c > 0;
    Bucket(x, c, q);
  }

  lemma MulDiv(q: nat, r: nat, d: nat)
    requires r < d
    ensures (q * d + r) / d == q && (q * d + r) % d == r
  {
    Bucket(q * d + r, d, q);
    assert q * d + r == ((q * d + r) / d) * d + (q * d + r) % d;
  }

  // Moving j further without leaving the block of length d.
  lemma SameBlock(x: nat, j: nat, d: nat)
    requires d > 0 && j < d - x % d
    ensures (x + j) / d == x / d && (x + j) % d == x % d + j
  {
    MulDiv(x / d, x % d + j, d);
    assert x == (x / d) * d + x % d;
  }

  function DivCeil(x: nat, d: nat): (r: nat)
    requires d > 0
    ensures r * d >= x && (r > 0 ==> (r - 1) * d < x)
  {
    Bucket(x, d, x / d);
    var q := x / d;
    assert x == q * d + x % d;
    if x % d == 0 then q else q + 1
  }

  lemma DivCeilUnique(x: nat, d: nat, r: nat)
    requires d > 0 && r * d >= x && (r > 0 ==> (r - 1) * d < x)
    ensures r == DivCeil(x, d)
  {
    var c := DivCeil(x, d);
    if r < c {
      MulMonotone(r, c - 1, d);
      assert false;
    } else if c < r {
      MulMonotone(c, r - 1, d);
      assert false;
    }
  }

  lemma MulAssoc(a: nat, b: nat, c: nat)
    ensures a * (b * c) == (a * b) * c
  {
  }

  // A bound on multiples of c, in multiples of g * c.
  lemma CeilUpper(x: nat, t: nat, r: nat, c: nat, g: nat)
    requires x <= t * c && t <= r * g
    ensures x <= r * (g * c)
  {
    MulMonotone(t, r * g, c);
    MulAssoc(r, g, c);
  }

  lemma CeilLower(x: nat, t: nat, r: nat, c: nat, g: nat)
    requires r > 0 && (t > 0 ==> (t - 1) * c < x) && (r - 1) * g < t
    ensures (r - 1) * (g * c) < x
  {
    // (r - 1) * g <= t - 1, and (t - 1) * c < x
    MulMonotone((r - 1) * g, t - 1, c);
    MulAssoc(r - 1, g, c);
  }

  lemma MulPositive(a: nat, b: nat)
    requires a > 0 && b > 0
    ensures a * b > 0
  {
  }

  // Rounding up twice is rounding up once, by the product.
  lemma DivCeilTwice(x: nat, c: nat, g: nat)
    requires c > 0 && g > 0
    ensures g * c > 0 && DivCeil(x, g * c) == DivCeil(DivCeil(x, c), g)
  {
    var t := DivCeil(x, c);
    var r := DivCeil(t, g);
    MulPositive(g, c);
    CeilUpper(x, t, r, c, g);
    if r > 0 {
      CeilLower(x, t, r, c, g);
    }
    DivCeilUnique(x, g * c, r);
  }
}

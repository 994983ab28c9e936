/** Division facts the solver does not find on its own. */
module Modular {

  lemma MulBounds(k: int, m: int)
    requires 0 < m
    ensures 1 <= k ==> m <= k * m
    ensures k <= -1 ==> k * m <= -m
  {
  }

  /** The remainder is the only one in range. */
  lemma ModUnique(a: int, m: int, q: int, r: int)
    requires 0 <= r < m && a == q * m + r
    ensures a % m == r && a / m == q
  {
    var p := a / m;
    assert a == p * m + a % m;
    MulBounds(q - p, m);
    assert (q - p) * m == q * m - p * m;
  }

  lemma AddMultiple(x: int, k: int, m: int)
    requires 0 < m
    ensures (x + k * m) % m == x % m
  {
    assert (x / m + k) * m == x / m * m + k * m;
    ModUnique(x + k * m, m, x / m + k, x % m);
  }

  lemma ModAdd(x: int, y: int, m: int)
    requires 0 < m
    ensures (x % m + y) % m == (x + y) % m
  {
    AddMultiple(x % m + y, x / m, m);
  }

  lemma Assoc(a: int, b: int, c: int)
    ensures a * (b * c) == (a * b) * c
  {
  }

  lemma DivMod(a: int, m: int)
    requires 0 < m
    ensures a == a / m * m + a % m
  {
  }

  lemma Nested(x: int, w: int, m: int, q: int, k: int, r: int)
    requires w == k * m && x == q * w + r
    ensures x == r + (q * k) * m
  {
    Assoc(q, k, m);
  }

  lemma ModOfMod(x: int, w: int, m: int)
    requires 0 < m && 0 < w && w % m == 0
    ensures x % w % m == x % m
  {
    DivMod(x, w);
    DivMod(w, m);
    Nested(x, w, m, x / w, w / m, x % w);
    AddMultiple(x % w, (x / w) * (w / m), m);
  }

  /** Indices less than m apart have different remainders. */
  lemma ModDiffer(x: int, y: int, m: int)
    requires x < y < x + m
    ensures x % m != y % m
  {
    var p, q := x / m, y / m;
    MulBounds(q - p, m);
    assert (q - p) * m == q * m - p * m;
  }
}

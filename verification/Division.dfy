/** Facts about quotients and remainders of natural numbers, and powers of two. */
module Division {

  lemma RoundDownFacts(x: nat, a: nat)
    requires a > 0
    ensures (x - x % a) % a == 0 && x - a < x - x % a <= x
  {
    var q := x / a;
    assert x - x % a == q * a;
    MultipleMod(q, a);
  }

  lemma MultipleMod(q: nat, a: nat)
    requires a > 0
    ensures q * a % a == 0
  {
    if q > 0 {
      MultipleMod(q - 1, a);
      assert q * a == (q - 1) * a + a;
      AddMod((q - 1) * a, a);
    }
  }

  lemma AddMod(x: nat, a: nat)
    requires a > 0
    ensures (x + a) % a == x % a
  {
    var q := x / a;
    assert x + a == (q + 1) * a + x % a by {
      assert (q + 1) * a == q * a + a;
    }
    UniqueQuotient(x + a, a, q + 1, x % a);
  }

  lemma UniqueQuotient(x: nat, a: nat, q: nat, r: nat)
    requires a > 0 && x == q * a + r && r < a
    ensures x / a == q && x % a == r
  {
    var d := x / a;
    assert x == d * a + x % a;
    assert d < q ==> (d + 1) * a <= q * a;
    assert d > q ==> (q + 1) * a <= d * a;
    assert (d + 1) * a == d * a + a && (q + 1) * a == q * a + a;
  }

  lemma UniqueMultiple(v: nat, r: nat, a: nat)
    requires a > 0 && v % a == 0 && r % a == 0 && v <= r < v + a
    ensures v == r
  {
    var i, j := v / a, r / a;
    assert v == i * a && r == j * a;
    assert j > i ==> j * a >= (i + 1) * a;
    assert (i + 1) * a == i * a + a;
  }

  lemma MulLe(a: int, b: int, c: nat)
    requires a <= b
    ensures a * c <= b * c
  {
  }

  lemma BelowDivisor(x: nat, a: nat)
    requires x < a
    ensures x / a == 0 && x % a == x
  {
    UniqueQuotient(x, a, 0, x);
  }

  function Pow2(k: nat): (r: nat)
    ensures r > 0
  {
    if k == 0 then 1 else 2 * Pow2(k - 1)
  }

  lemma {:induction false} Pow2Add(i: nat, j: nat)
    ensures Pow2(i + j) == Pow2(i) * Pow2(j)
  {
    if i > 0 {
      Pow2Add(i - 1, j);
      assert Pow2(i) * Pow2(j) == 2 * (Pow2(i - 1) * Pow2(j));
    }
  }

  lemma Pow2Divides(i: nat, j: nat)
    requires i <= j
    ensures Pow2(i) <= Pow2(j) && Pow2(j) % Pow2(i) == 0 && Pow2(j) / Pow2(i) == Pow2(j - i)
  {
    Pow2Add(j - i, i);
    UniqueQuotient(Pow2(j), Pow2(i), Pow2(j - i), 0);
    assert Pow2(j - i) * Pow2(i) >= 1 * Pow2(i);
  }

  lemma {:induction false} Pow2Less(i: nat, j: nat)
    requires i < j
    ensures Pow2(i) < Pow2(j)
  {
    if i + 1 < j {
      Pow2Less(i, j - 1);
    }
  }

  /** Of two multiples, the smaller one is at least a whole step below. */
  lemma NextMultiple(x: nat, y: nat, a: nat)
    requires a > 0 && x % a == 0 && y % a == 0 && x < y
    ensures x + a <= y && (x + a) % a == 0
  {
    var i, j := x / a, y / a;
    assert x == i * a && y == j * a;
    assert j <= i ==> j * a <= i * a;
    assert (i + 1) * a <= j * a;
    AddMod(x, a);
  }

  /** A multiple of a multiple. */
  lemma DividesTrans(x: nat, b: nat, a: nat)
    requires a > 0 && b > 0 && x % b == 0 && b % a == 0
    ensures x % a == 0
  {
    var i, j := x / b, b / a;
    assert x == i * b && b == j * a;
    assert x == (i * j) * a;
    MultipleMod(i * j, a);
  }
}

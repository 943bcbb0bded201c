/** Powers of two and the bitwise "and" of natural numbers. */
module Powers {
  function Pow2(p: nat): (r: nat)
    ensures r >= 1
  {
    if p == 0 then 1 else 2 * Pow2(p - 1)
  }

  function And(a: nat, b: nat): nat {
    if a == 0 || b == 0 then 0 else (a % 2) * (b % 2) + 2 * And(a / 2, b / 2)
  }

  /** A mask of ones takes the remainder. */
  lemma {:induction false} AndMask(a: nat, p: nat)
    ensures And(a, Pow2(p) - 1) == a % Pow2(p)
    decreases p
  {
    if p > 0 && a > 0 {
      var half := Pow2(p - 1);
      assert (Pow2(p) - 1) % 2 == 1 && (Pow2(p) - 1) / 2 == half - 1;
      AndMask(a / 2, p - 1);
      Halves(a, half);
    } else if a == 0 {
      assert 0 % Pow2(p) == 0;
    } else {
      assert Pow2(p) == 1;
    }
  }

  lemma Halves(a: nat, half: nat)
    requires half > 0
    ensures a % (2 * half) == a % 2 + 2 * ((a / 2) % half)
  {
    var q, r := (a / 2) / half, (a / 2) % half;
    assert a / 2 == q * half + r;
    assert a == q * (2 * half) + (a % 2 + 2 * r);
    var s := a % 2 + 2 * r;
    assert 0 <= s < 2 * half;
    Unique(a, 2 * half, q, s);
  }

  lemma Unique(a: int, d: nat, q: int, s: nat)
    requires d > 0 && a == q * d + s && s < d
    ensures a % d == s
  {
    var q', s' := a / d, a % d;
    assert (q - q') * d == s' - s;
    if q < q' { AtLeast(q' - q, d); }
    if q' < q { AtLeast(q - q', d); }
  }

  lemma AtLeast(x: int, d: nat)
    requires x >= 1
    ensures x * d >= d && (0 - x) * d <= 0 - d
  {
  }
}

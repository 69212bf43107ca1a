/** Powers of two and the division facts that binary arithmetic rests on. */
module Binary {

  function Pow2(n: nat): (r: nat)
    ensures 0 < r
  {
    if n == 0 then 1 else 2 * Pow2(n - 1)
  }

  lemma {:induction false} PowSum(a: nat, b: nat)
    ensures Pow2(a + b) == Pow2(a) * Pow2(b)
    decreases b
  {
    if b > 0 {
      PowSum(a, b - 1);
      Associate(Pow2(a), Pow2(b - 1));
    }
  }

  lemma Associate(a: int, b: int)
    ensures 2 * (a * b) == a * (2 * b)
  {
  }

  lemma Distribute(a: int, b: int, c: int)
    ensures (a + b) * c == a * c + b * c
    ensures (a - b) * c == a * c - b * c
  {
  }

  lemma Assoc(a: int, b: int, c: int)
    ensures (a * b) * c == a * (b * c)
  {
  }

  lemma MulOrder(a: int, b: int, c: int)
    requires 0 < c
    ensures a < b <==> a * c < b * c
    ensures a <= b <==> a * c <= b * c
    ensures a == b <==> a * c == b * c
  {
    Distribute(b, a, c);
    Positive(b - a, c);
    Positive(a - b, c);
    Distribute(a, b, c);
  }

  lemma Positive(a: int, c: int)
    requires 0 < c
    ensures 0 < a ==> c <= a * c
    ensures a <= 0 ==> a * c <= 0
  {
    if 0 < a {
      NonNegative(a - 1, c);
      Distribute(a, 1, c);
    } else {
      NonNegative(-a, c);
      Distribute(0, a, c);
    }
  }

  lemma NonNegative(a: int, c: int)
    requires 0 <= a && 0 <= c
    ensures 0 <= a * c
  {
  }

  lemma Quotient(a: int, b: int, q: int, r: int)
    requires a == q * b + r && 0 <= r < b
    ensures a / b == q && a % b == r
  {
    var e := a / b - q;
    assert a == (a / b) * b + a % b;
    Distribute(a / b, q, b);
    Positive(e, b);
    Positive(-e, b);
    Distribute(0, e, b);
  }

  /** A larger number of bits is a multiple of a smaller. */
  lemma PowDivides(a: nat, b: nat)
    requires a <= b
    ensures Pow2(b) == Pow2(b - a) * Pow2(a) && Pow2(b) % Pow2(a) == 0 && Pow2(a) <= Pow2(b)
  {
    PowSum(b - a, a);
    Quotient(Pow2(b), Pow2(a), Pow2(b - a), 0);
    Positive(Pow2(b - a), Pow2(a));
  }

  lemma PowEven(n: nat)
    requires 0 < n
    ensures Pow2(n) == 2 * Pow2(n - 1) && Pow2(n) % 2 == 0
  {
    Quotient(Pow2(n), 2, Pow2(n - 1), 0);
  }

  lemma DivMod(a: int, b: int)
    requires 0 < b
    ensures a == (a / b) * b + a % b && 0 <= a % b < b
  {
  }

  lemma DivNat(a: nat, b: nat)
    requires 0 < b
    ensures 0 <= a / b
  {
    DivMod(a, b);
    Positive(-(a / b), b);
    Distribute(0, a / b, b);
  }
}

/** Which whole numbers of smallest subnormals are doubles, and what a rounding of any other number
    may be.  Nothing here depends on the rounding direction in force. */
module Representable {
  import opened Binary
  import opened Doubles
  import opened Rounding

  const LIMIT: nat := 0x20_0000_0000_0000      // 2^53
  const HIDDEN: nat := 0x10_0000_0000_0000     // 2^52

  predicate IsRep(n: nat) { n < LIMIT || (n % 2 == 0 && IsRep(n / 2)) }

  function Abs(v: int): nat { if v < 0 then -v else v }

  predicate IsDouble(v: int) { IsRep(Abs(v)) }

  /** r is a double next to v: no double lies between. All four directions round to such a one. */
  ghost predicate IsRounding(v: int, r: int) {
    IsDouble(r) && forall c: int :: IsDouble(c) ==> (c <= v ==> c <= r) && (v <= c ==> r <= c)
  }

  /** A result that is a double is delivered as it is. */
  lemma ExactResult(v: int, r: int)
    requires IsDouble(v) && IsRounding(v, r)
    ensures r == v
  {
  }

  // ----- Rounding exists

  function Down(n: nat): nat { if n < LIMIT then n else 2 * Down(n / 2) }

  function Up(n: nat): nat { if n < LIMIT then n else 2 * Up((n + 1) / 2) }

  lemma {:induction false} DownIsNext(n: nat, c: nat)
    requires IsRep(c)
    ensures IsRep(Down(n)) && Down(n) <= n && (c <= n ==> c <= Down(n))
  {
    if LIMIT <= n {
      DownIsNext(n / 2, if LIMIT <= c then c / 2 else 0);
      DownIsNext(n / 2, HIDDEN);
      DoubleIsRep(Down(n / 2));
    }
  }

  lemma {:induction false} UpIsNext(n: nat, c: nat)
    requires IsRep(c)
    ensures IsRep(Up(n)) && n <= Up(n) && (n <= c ==> Up(n) <= c)
  {
    if LIMIT <= n {
      UpIsNext((n + 1) / 2, if LIMIT <= c then c / 2 else 0);
      DoubleIsRep(Up((n + 1) / 2));
    }
  }

  /** An operation whose exact result is v, in whatever direction the environment rounds. */
  method Operation(v: int) returns (r: int)
    ensures IsRounding(v, r)
  {
    if * {
      r := Sign(v < 0, Down(Abs(v)));
    } else {
      r := Sign(v < 0, Up(Abs(v)));
    }
    NextBySign(v, r);
  }

  lemma NextBySign(v: int, r: int)
    requires r == Sign(v < 0, Down(Abs(v))) || r == Sign(v < 0, Up(Abs(v)))
    ensures IsRounding(v, r)
  {
    DownIsNext(Abs(v), 0);
    UpIsNext(Abs(v), 0);
    hide Down, Up, IsRep;
    assert Abs(r) == Down(Abs(v)) || Abs(r) == Up(Abs(v));
    forall c: int | IsDouble(c) ensures (c <= v ==> c <= r) && (v <= c ==> r <= c) {
      DownIsNext(Abs(v), Abs(c));
      UpIsNext(Abs(v), Abs(c));
    }
  }

  // ----- Sums and products that are doubles

  lemma DoubleIsRep(n: nat)
    requires IsRep(n)
    ensures IsRep(2 * n)
  {
    assert 2 * n / 2 == n;
  }

  lemma {:induction false} ShiftedIsRep(s: nat, k: nat)
    requires s < LIMIT
    ensures IsRep(s * Pow2(k))
  {
    if k == 0 {
    } else {
      ShiftedIsRep(s, k - 1);
      Associate(s, Pow2(k - 1));
      DoubleIsRep(s * Pow2(k - 1));
    }
  }

  /** The difference of two doubles within a factor of two is a double. */
  lemma {:induction false} CloseDifference(x: nat, y: nat)
    requires IsRep(x) && IsRep(y) && x <= y <= 2 * x
    ensures IsRep(y - x)
  {
    if LIMIT <= x {
      CloseDifference(x / 2, y / 2);
      DoubleIsRep(y / 2 - x / 2);
    }
  }

  // ----- Doubles and their bits

  lemma Hidden()
    ensures Pow2(DOUBLE.bits) == HIDDEN && 2 * HIDDEN == LIMIT
  {
    FractionBits();
  }

  lemma ValueIsRep(m: nat)
    ensures IsRep(Value(DOUBLE, m))
  {
    Hidden();
    Unpack(DOUBLE, m);
    if Field(DOUBLE, m) != 0 { ShiftedIsRep(HIDDEN + Fraction(DOUBLE, m), Field(DOUBLE, m) - 1); }
  }

  /** The bits of a representable number. */
  function ToBits(n: nat): nat
    requires IsRep(n)
  {
    if n < LIMIT then n else ToBits(n / 2) + HIDDEN
  }

  lemma {:induction false} ValueOfBits(n: nat)
    requires IsRep(n)
    ensures Value(DOUBLE, ToBits(n)) == n
  {
    Hidden();
    if n < LIMIT {
      SubnormalValue(DOUBLE, n);
    } else {
      ValueOfBits(n / 2);
      NextExponent(ToBits(n / 2));
    }
  }

  /** Adding one to the exponent field doubles the value. */
  lemma NextExponent(m: nat)
    requires HIDDEN <= Value(DOUBLE, m)
    ensures Value(DOUBLE, m + HIDDEN) == 2 * Value(DOUBLE, m)
  {
    Hidden();
    var e, s := Field(DOUBLE, m), HIDDEN + Fraction(DOUBLE, m);
    Unpack(DOUBLE, m);
    Distribute(e, 1, HIDDEN);
    assert m + HIDDEN == Packed(DOUBLE, e + 1, s);
    PackedValue(DOUBLE, e, s);
    PackedValue(DOUBLE, e + 1, s);
    Associate(s, Pow2(e - 1));
  }

  lemma FiniteBits(n: nat)
    requires IsRep(n) && n < Value(DOUBLE, TopField(DOUBLE) * Pow2(DOUBLE.bits))
    ensures Finite(DOUBLE, ToBits(n))
  {
    ValueOfBits(n);
    FiniteBelow(ToBits(n));
  }

  lemma FiniteBelow(m: nat)
    ensures Finite(DOUBLE, m) <==> Value(DOUBLE, m) < Value(DOUBLE, TopField(DOUBLE) * Pow2(DOUBLE.bits))
  {
    hide Value, Pow2;
    var p, top := Pow2(DOUBLE.bits), TopField(DOUBLE);
    Ordered(DOUBLE, m, top * p);
    Unpack(DOUBLE, m);
    Distribute(Field(DOUBLE, m), 1, p);
    MulOrder(Field(DOUBLE, m) + 1, top, p);
    MulOrder(top, Field(DOUBLE, m), p);
  }
}

/** `fmod`, `remainder` and `remquo` on doubles: a long division on the significands, in which every
    floating-point operation is exact, and a rescaling that is exact too. */
module Remainder {
  import opened Binary
  import opened Doubles
  import opened Rounding
  import opened Scaling
  import opened Representable

  const REMQUO_MODULUS := 128

  /** The value of the last bit of a number from a half up to one, in smallest subnormals. */
  const UNIT_EXPONENT := 1021

  function V(m: nat): nat { Value(DOUBLE, m) }

  // ----- The division loop

  /** Before bit `index`: the bits so far, and the doubled remainder. */
  ghost predicate Dividing(sx: nat, sy: nat, shifts: nat, index: nat, q: nat, a: nat) {
    if index <= shifts then sx * Pow2(index) == 2 * q * sy + a && a < 2 * sy
    else sx * Pow2(shifts) == q * sy + a && a < sy
  }

  /** One bit of the quotient. */
  lemma DivisionStep(sx: nat, sy: nat, shifts: nat, index: nat, q: nat, a: nat)
    requires Dividing(sx, sy, shifts, index, q, a) && index <= shifts
    ensures Left(a, sy) < sy && Dividing(sx, sy, shifts, index + 1, 2 * q + Bit(a, sy), Next(a, sy, index == shifts))
  {
    Distribute(2 * q, Bit(a, sy), sy);
    if index != shifts {
      Associate(sx, Pow2(index));
      Assoc(2, 2 * q + Bit(a, sy), sy);
    }
  }

  lemma UnitsOrder(remainder: int, a: nat, divisor: int, sy: nat)
    requires remainder == a * Pow2(UNIT_EXPONENT) && divisor == sy * Pow2(UNIT_EXPONENT)
    ensures (sy <= a <==> divisor <= remainder) && remainder - divisor == (a - sy) * Pow2(UNIT_EXPONENT)
    ensures sy == a <==> divisor == remainder
  {
    MulOrder(sy, a, Pow2(UNIT_EXPONENT));
    Distribute(a, sy, Pow2(UNIT_EXPONENT));
  }

  /** The subtraction and the doubling of the loop are exact. */
  lemma LoopExact(a: nat)
    requires a < LIMIT
    ensures IsDouble(a * Pow2(UNIT_EXPONENT)) && IsDouble(2 * (a * Pow2(UNIT_EXPONENT)))
    ensures 2 * (a * Pow2(UNIT_EXPONENT)) == (2 * a) * Pow2(UNIT_EXPONENT)
  {
    ShiftedIsRep(a, UNIT_EXPONENT);
    NonNegative(a, Pow2(UNIT_EXPONENT));
    DoubleIsRep(a * Pow2(UNIT_EXPONENT));
    Assoc(2, a, Pow2(UNIT_EXPONENT));
  }

  /** v is a whole number of last bits of a unit. */
  ghost predicate InUnits(v: int, a: int) { v == a * Pow2(UNIT_EXPONENT) }

  /** What is left after a bit of the quotient. */
  function Left(a: nat, sy: nat): (b: nat) { if sy <= a then a - sy else a }

  function Bit(a: nat, sy: nat): nat { if sy <= a then 1 else 0 }

  function Next(a: nat, sy: nat, last: bool): nat { if last then Left(a, sy) else 2 * Left(a, sy) }

  /** The conditional subtraction and the doubling of one round. */
  method Round(remainder: int, divisor: int, last: bool, ghost a: nat, ghost sy: nat) returns (next: int, bit: nat)
    requires InUnits(remainder, a) && InUnits(divisor, sy) && a < 2 * sy && sy < LIMIT
    ensures bit == Bit(a, sy) && InUnits(next, Next(a, sy, last))
  {
    UnitsOrder(remainder, a, divisor, sy);
    LoopExact(Left(a, sy));
    hide Pow2;
    next, bit := remainder, 0;
    if divisor <= remainder {
      ghost var exact := remainder - divisor;
      next := Operation(remainder - divisor);
      ExactResult(exact, next);
      bit := 1;
    }
    if !last {
      ghost var exact := next * 2;
      next := Operation(next * 2);
      ExactResult(exact, next);
    }
  }

  lemma BitAppended(q: nat, bit: nat)
    requires bit <= 1
    ensures (q % REMQUO_MODULUS * 2 + bit) % REMQUO_MODULUS == (2 * q + bit) % REMQUO_MODULUS
  {
    ModShift(q % REMQUO_MODULUS * 2 + bit, 2 * (q / REMQUO_MODULUS));
  }

  lemma ModShift(a: int, j: int)
    ensures (a + REMQUO_MODULUS * j) % REMQUO_MODULUS == a % REMQUO_MODULUS
  {
    Quotient(a + REMQUO_MODULUS * j, REMQUO_MODULUS, a / REMQUO_MODULUS + j, a % REMQUO_MODULUS);
  }

  /** What reduce_positive finds out. */
  datatype Reduction = Reduction(remainderUnit: int, divisorUnit: int, divisorExponent: int, quotientLow: nat)

  /** The significands behind a reduction: what is left of the dividend's, and the divisor's. */
  ghost predicate Reduced(x: nat, y: nat, r: Reduction, a: nat, sy: nat) {
    && 0 < V(y) && a < sy < LIMIT && InUnits(r.remainderUnit, a) && InUnits(r.divisorUnit, sy)
    && r.quotientLow == V(x) / V(y) % REMQUO_MODULUS
    && Scaled(sy, r.divisorExponent + UNIT_EXPONENT, V(y)) && Scaled(a, r.divisorExponent + UNIT_EXPONENT, V(x) % V(y))
  }

  /** The larger number has the larger exponent, or the same. */
  lemma ExponentsOrdered(x: nat, sx: nat, ex: int, y: nat, sy: nat, ey: int)
    requires Normal(DOUBLE, x, sx, ex) && Normal(DOUBLE, y, sy, ey) && V(y) < V(x)
    ensures ey <= ex
  {
    if ex < ey {
      var a, b := ex + 1022, ey + 1022;
      var k := if a < 0 then -a else 0;
      ScaledThen(sx, a, V(x), k, V(x) * Pow2(k));
      ScaledThen(sy, b, V(y), k, V(y) * Pow2(k));
      MulOrder(V(y), V(x), Pow2(k));
      LargerExponent(sx, a + k, sy, b + k);
    }
  }

  lemma ProductOrder(sx: int, sy: int, h: int, p: int, r: int)
    requires 0 < p && 0 < h && 2 * p <= r && sx < 2 * h && h <= sy
    ensures sx * p < sy * r
  {
    MulOrder(sx, 2 * h, p);
    Assoc(2, h, p);
    NonNegative(r - 2 * p, h);
    Distribute(r, 2 * p, h);
    Assoc(2, p, h);
    MulOrder(h, sy, r);
  }

  lemma LargerExponent(sx: nat, a: nat, sy: nat, b: nat)
    requires sx < 2 * Pow2(52) && Pow2(52) <= sy && a < b
    ensures sx * Pow2(a) < sy * Pow2(b)
  {
    PowDivides(a + 1, b);
    assert Pow2(a + 1) == 2 * Pow2(a);
    ProductOrder(sx, sy, Pow2(52), Pow2(a), Pow2(b));
  }

  /** Division of the significands is division of the values. */
  lemma QuotientOf(sx: nat, sy: nat, shifts: nat, t: int, vx: nat, vy: nat, q: nat, a: nat)
    requires Scaled(sx, t + shifts, vx) && Scaled(sy, t, vy) && sx * Pow2(shifts) == q * sy + a && a < sy
    ensures 0 < vy && vx / vy == q && Scaled(a, t, vx % vy)
  {
    ScaledTrans(sx, shifts, sx * Pow2(shifts), t, vx);
    if 0 <= t {
      var p := Pow2(t);
      Distribute(q * sy, a, p);
      Assoc(q, sy, p);
      MulOrder(a, sy, p);
      NonNegative(a, p);
      Positive(sy, p);
      Quotient(vx, vy, q, a * p);
    } else {
      var p := Pow2(-t);
      Assoc(q, vy, p);
      Distribute(vx, q * vy, p);
      var w := vx - q * vy;
      assert w * p == a;
      MulOrder(0, vy, p);
      MulOrder(w, vy, p);
      MulOrder(0, w, p);
      Quotient(vx, vy, q, w);
    }
  }

  /** The loop of reduce_positive. */
  method Divide(start: int, divisor: int, shifts: nat, ghost sx: nat, ghost sy: nat)
      returns (remainder: int, quotient: nat, ghost q: nat, ghost a: nat)
    requires InUnits(start, sx) && InUnits(divisor, sy) && sx < 2 * sy && sy < LIMIT
    ensures Dividing(sx, sy, shifts, shifts + 1, q, a) && quotient == q % REMQUO_MODULUS && InUnits(remainder, a)
  {
    remainder, quotient, q, a := start, 0, 0, sx;
    var index := 0;
    assert Dividing(sx, sy, shifts, 0, 0, sx);
    hide Dividing, InUnits, Pow2;
    while index <= shifts
      invariant 0 <= index <= shifts + 1 && Dividing(sx, sy, shifts, index, q, a) && quotient == q % REMQUO_MODULUS
      invariant InUnits(remainder, a) && a < 2 * sy
    {
      var bit;
      DivisionStep(sx, sy, shifts, index, q, a);
      remainder, bit := Round(remainder, divisor, index == shifts, a, sy);
      BitAppended(q, bit);
      quotient := (quotient * 2 + bit) % REMQUO_MODULUS;
      q := 2 * q + bit;
      a := Next(a, sy, index == shifts);
      index := index + 1;
    }
  }

  /** reduce_positive. */
  method ReducePositive(x: nat, y: nat) returns (r: Reduction, ghost a: nat, ghost sy: nat)
    requires Finite(DOUBLE, x) && Finite(DOUBLE, y) && 0 < y && V(y) < V(x)
    ensures Reduced(x, y, r, a, sy)
    ensures 0 < V(y) && r.quotientLow == V(x) / V(y) % REMQUO_MODULUS
  {
    Hidden();
    NotZero(x, y);
    var xUnit, xExponent, sx := FrExp(DOUBLE, x);
    var yUnit, yExponent, s := FrExp(DOUBLE, y);
    sy := s;
    ExponentsOrdered(x, sx, xExponent - 1, y, sy, yExponent - 1);
    assert HIDDEN <= sx < LIMIT && HIDDEN <= sy < LIMIT;
    hide Value, Finite, Normal, Dividing, Scaled, Pow2, Packed;
    var remainder, quotient;
    ghost var q;
    remainder, quotient, q, a := Divide(V(xUnit), V(yUnit), xExponent - yExponent, sx, sy);
    FinishDivision(x, y, sx, xExponent, sy, yExponent, q, a);
    r := Reduction(remainder, V(yUnit), yExponent, quotient);
  }

  lemma NotZero(x: nat, y: nat)
    requires 0 < y && V(y) < V(x)
    ensures 0 < x
  {
    Ordered(DOUBLE, y, x);
  }

  lemma FinishDivision(x: nat, y: nat, sx: nat, xExponent: int, sy: nat, yExponent: int, q: nat, a: nat)
    requires Normal(DOUBLE, x, sx, xExponent - 1) && Normal(DOUBLE, y, sy, yExponent - 1) && yExponent <= xExponent
    requires Dividing(sx, sy, xExponent - yExponent, xExponent - yExponent + 1, q, a)
    ensures a < sy && 0 < V(y) && V(x) / V(y) == q
    ensures Scaled(sy, yExponent + UNIT_EXPONENT, V(y)) && Scaled(a, yExponent + UNIT_EXPONENT, V(x) % V(y))
  {
    hide Scaled, Value;
    QuotientOf(sx, sy, xExponent - yExponent, yExponent + UNIT_EXPONENT, V(x), V(y), q, a);
  }

  // ----- Scaling back

  /** The value where infinity begins. */
  function TopOf(): nat { V(TopField(DOUBLE) * Pow2(DOUBLE.bits)) }

  /** scalbn of a number from the loop: exact, in every rounding direction. */
  method ScaleBack(v: int, exponent: int, mode: Mode, ghost n: int, ghost w: nat) returns (r: Float)
    requires InUnits(v, n) && Abs(n) < LIMIT && Scaled(Abs(n), exponent + UNIT_EXPONENT, w) && w < TopOf()
    ensures V(r.magnitude) == w && r.negative == (v < 0)
  {
    UnitBits(v, n);
    var x := Float(v < 0, ToBits(Abs(v)));
    if n == 0 {
      ScaledZero(exponent + UNIT_EXPONENT, w);
    } else {
      ScaledTrans(Abs(n), UNIT_EXPONENT, Abs(v), exponent, w);
    }
    hide Value, Pow2, Scaled, InUnits, ToBits, IsRep;
    var status;
    ghost var s, e;
    r, status, s, e := Scale(DOUBLE, x, exponent, mode);
    if n != 0 {
      ScaleIsExact(DOUBLE, x, exponent, mode, r, status, s, e, w);
    }
  }

  lemma UnitBits(v: int, n: int)
    requires InUnits(v, n) && Abs(n) < LIMIT
    ensures IsRep(Abs(v)) && V(ToBits(Abs(v))) == Abs(v) == Abs(n) * Pow2(UNIT_EXPONENT) && Finite(DOUBLE, ToBits(Abs(v)))
    ensures (n == 0 <==> v == 0) && (v == 0 <==> ToBits(Abs(v)) == 0) && V(0) == 0
  {
    Distribute(0, n, Pow2(UNIT_EXPONENT));
    Positive(n, Pow2(UNIT_EXPONENT));
    Positive(-n, Pow2(UNIT_EXPONENT));
    ShiftedIsRep(Abs(n), UNIT_EXPONENT);
    ValueOfBits(Abs(v));
    SubnormalValue(DOUBLE, 0);
    Ordered(DOUBLE, ToBits(Abs(v)), 0);
    BelowTop(Abs(n));
    FiniteBits(Abs(v));
  }

  lemma BelowTop(n: nat)
    requires n < LIMIT
    ensures n * Pow2(UNIT_EXPONENT) < TopOf()
  {
    Hidden();
    TopValue(DOUBLE);
    PowDivides(UNIT_EXPONENT + 1, 2 * 1023);
    ProductOrder(n, HIDDEN, HIDDEN, Pow2(UNIT_EXPONENT), Pow2(2 * 1023));
  }

  lemma ScaledZero(k: int, w: int)
    requires Scaled(0, k, w)
    ensures w == 0
  {
    if k < 0 { Positive(w, Pow2(-k)); Positive(-w, Pow2(-k)); Distribute(0, w, Pow2(-k)); }
  }

  // ----- fmod

  predicate Operands(x: Float, y: Float) { Finite(DOUBLE, x.magnitude) && Finite(DOUBLE, y.magnitude) && 0 < y.magnitude }

  lemma DivisorPositive(x: Float, y: Float)
    requires Operands(x, y)
    ensures 0 < V(y.magnitude) < TopOf() && V(x.magnitude) < TopOf() && V(0) == 0
  {
    SubnormalValue(DOUBLE, 0);
    Ordered(DOUBLE, 0, y.magnitude);
    FiniteBelow(x.magnitude);
    FiniteBelow(y.magnitude);
  }

  /** The sign of x, and the exact remainder of the magnitudes. */
  ghost predicate FModOutcome(x: Float, y: Float, r: Float)
    requires 0 < V(y.magnitude)
  {
    r.negative == x.negative && V(r.magnitude) == V(x.magnitude) % V(y.magnitude)
  }

  /** What section 7.12.10.1 of C11 asks: x less an integral multiple of y, with the sign of x and
      a magnitude below that of y. */
  lemma FModMeans(x: Float, y: Float, r: Float)
    requires 0 < V(y.magnitude) && FModOutcome(x, y, r)
    ensures V(r.magnitude) < V(y.magnitude) && r.negative == x.negative
    ensures Doubles.Signed(DOUBLE, x) - Doubles.Signed(DOUBLE, r) == Sign(x.negative != y.negative, V(x.magnitude) / V(y.magnitude)) * Doubles.Signed(DOUBLE, y)
  {
    var vx: int, vy: int := V(x.magnitude), V(y.magnitude);
    DivMod(vx, vy);
    SignProduct(x.negative, y.negative, vx / vy, vy);
  }

  lemma SignProduct(a: bool, b: bool, q: int, v: int)
    ensures Sign(a != b, q) * Sign(b, v) == Sign(a, q * v)
  {
  }

  /** fmod_finite. */
  method FModFinite(x: Float, y: Float, mode: Mode) returns (r: Float)
    requires Operands(x, y)
    ensures 0 < V(y.magnitude) && FModOutcome(x, y, r)
  {
    DivisorPositive(x, y);
    var ax, ay := V(x.magnitude), V(y.magnitude);
    hide Value, TopOf;
    if ax < ay {
      Quotient(ax, ay, 0, ax);
      return x;
    }
    if ax == ay {
      Quotient(ax, ay, 1, 0);
      return Float(x.negative, 0);
    }
    var reduction, a, sy := ReducePositive(x.magnitude, y.magnitude);
    DivMod(ax, ay);
    var result := ScaleBack(reduction.remainderUnit, reduction.divisorExponent, mode, a, ax % ay);
    return Float(x.negative, result.magnitude);
  }

  // ----- remainder and remquo

  /** The whole number nearest to the quotient, the even one of two. */
  function NearestQuotient(vx: int, vy: int): (n: nat)
    requires 0 <= vx && 0 < vy
  {
    DivNat(vx, vy);
    var q, w := vx / vy, vx % vy;
    if vy < 2 * w || (2 * w == vy && q % 2 != 0) then q + 1 else q
  }

  lemma NearestMeans(vx: int, vy: int)
    requires 0 <= vx && 0 < vy
    ensures var n := NearestQuotient(vx, vy); var d := vx - n * vy;
      -vy <= 2 * d <= vy && (2 * d == vy || 2 * d == -vy ==> n % 2 == 0)
  {
    DivMod(vx, vy);
    Distribute(vx / vy, 1, vy);
  }

  /** The rest after the nearest multiple. */
  function Rest(vx: int, vy: int): int
    requires 0 <= vx && 0 < vy
  {
    vx - NearestQuotient(vx, vy) * vy
  }

  lemma RestBy(vx: int, vy: int)
    requires 0 <= vx && 0 < vy
    ensures Rest(vx, vy) == if NearestQuotient(vx, vy) == vx / vy then vx % vy else vx % vy - vy
    ensures vx < vy ==> NearestQuotient(vx, vy) == if vy < 2 * vx then 1 else 0
    ensures vx < vy ==> Rest(vx, vy) == if vy < 2 * vx then vx - vy else vx
  {
    DivMod(vx, vy);
    Distribute(vx / vy, 1, vy);
    if vx < vy { Quotient(vx, vy, 0, vx); }
  }

  /** Comparing with the rounded difference is comparing with the difference. */
  lemma NearDecides(ax: int, ay: int, opposite: int)
    requires 0 <= ax < ay && IsDouble(ax) && IsDouble(ay) && IsRounding(ay - ax, opposite)
    ensures opposite < ax <==> ay < 2 * ax
    ensures ay < 2 * ax ==> IsDouble(ax - ay)
  {
    if ay < 2 * ax {
      CloseDifference(ax, ay);
      assert Abs(ay - ax) == ay - ax == Abs(ax - ay);
      ExactResult(ay - ax, opposite);
    }
  }

  /** The branch for |x| < |y|: the comparison with the rounded difference decides exactly. */
  method Near(x: nat, y: nat) returns (result: int, quotient: nat)
    requires V(x) < V(y)
    ensures result == Rest(V(x), V(y)) && quotient == NearestQuotient(V(x), V(y)) && IsDouble(result) && Abs(result) < V(y)
  {
    var ax: int, ay: int := V(x), V(y);
    RestBy(ax, ay);
    ValueIsRep(x);
    ValueIsRep(y);
    assert Abs(ax) == ax && Abs(ay) == ay;
    hide Value, NearestQuotient, Rest, IsRep;
    var opposite := Operation(ay - ax);
    NearDecides(ax, ay, opposite);
    if opposite < ax {
      result := Operation(ax - ay);
      ExactResult(ax - ay, result);
      quotient := 1;
    } else {
      result, quotient := ax, 0;
    }
  }

  /** Twice what is left against the divisor, on significands and on values. */
  lemma HalfDecides(x: nat, y: nat, r: Reduction, a: nat, sy: nat)
    requires Reduced(x, y, r, a, sy)
    ensures (sy < 2 * a <==> V(y) < 2 * (V(x) % V(y))) && (sy == 2 * a <==> V(y) == 2 * (V(x) % V(y)))
    ensures V(x) % V(y) < V(y) && Scaled(sy - a, r.divisorExponent + UNIT_EXPONENT, V(y) - V(x) % V(y))
  {
    var k, w := r.divisorExponent + UNIT_EXPONENT, V(x) % V(y);
    DivMod(V(x), V(y));
    hide Value;
    if 0 <= k {
      Assoc(2, a, Pow2(k));
      MulOrder(sy, 2 * a, Pow2(k));
      Distribute(sy, a, Pow2(k));
    } else {
      Assoc(2, w, Pow2(-k));
      MulOrder(V(y), 2 * w, Pow2(-k));
      Distribute(V(y), w, Pow2(-k));
    }
  }

  lemma LowBit(q: nat)
    ensures q % REMQUO_MODULUS % 2 == q % 2 && (q % REMQUO_MODULUS + 1) % REMQUO_MODULUS == (q + 1) % REMQUO_MODULUS
  {
    AddEven(q % REMQUO_MODULUS, 64 * (q / REMQUO_MODULUS));
    ModShift(q % REMQUO_MODULUS + 1, q / REMQUO_MODULUS);
  }

  /** The comparisons of the two doubles, one of them doubled. */
  lemma TwiceDecides(remainder: int, a: nat, divisor: int, sy: nat)
    requires InUnits(remainder, a) && InUnits(divisor, sy) && a < sy < LIMIT
    ensures IsDouble(remainder * 2) && IsDouble(remainder - divisor) && InUnits(remainder - divisor, a - sy)
    ensures (divisor < remainder * 2 <==> sy < 2 * a) && (remainder * 2 == divisor <==> 2 * a == sy)
  {
    hide Pow2, IsRep;
    LoopExact(a);
    LoopExact(sy - a);
    var p := Pow2(UNIT_EXPONENT);
    Distribute(a, sy, p);
    Distribute(sy, a, p);
    MulOrder(sy, 2 * a, p);
    assert Abs(remainder - divisor) == divisor - remainder == (sy - a) * p;
    assert Abs(remainder * 2) == remainder * 2 == 2 * (a * p);
  }

  /** The choice between the remainder and the one a divisor less. */
  method Choose(r: Reduction, ghost a: nat, ghost sy: nat) returns (unit: int, quotient: nat, ghost up: bool)
    requires InUnits(r.remainderUnit, a) && InUnits(r.divisorUnit, sy) && a < sy < LIMIT
    ensures up == GoesUp(r, a, sy)
    ensures InUnits(unit, if up then a - sy else a) && quotient == if up then (r.quotientLow + 1) % REMQUO_MODULUS else r.quotientLow
  {
    TwiceDecides(r.remainderUnit, a, r.divisorUnit, sy);
    hide InUnits, IsDouble;
    var twice := Operation(r.remainderUnit * 2);
    ExactResult(r.remainderUnit * 2, twice);
    unit, quotient, up := r.remainderUnit, r.quotientLow, false;
    if r.divisorUnit < twice || (twice == r.divisorUnit && quotient % 2 != 0) {
      up := true;
      unit := Operation(r.remainderUnit - r.divisorUnit);
      ExactResult(r.remainderUnit - r.divisorUnit, unit);
      quotient := (quotient + 1) % REMQUO_MODULUS;
    }
  }

  predicate GoesUp(r: Reduction, a: nat, sy: nat) { sy < 2 * a || (2 * a == sy && r.quotientLow % 2 != 0) }

  /** The choice on significands is the choice on values. */
  lemma UpIsNearest(vx: int, vy: int, q: int, w: int, low: int, a: int, sy: int)
    requires 0 <= vx && 0 < vy && q == vx / vy && w == vx % vy && low == q % REMQUO_MODULUS
    requires (sy < 2 * a <==> vy < 2 * w) && (sy == 2 * a <==> vy == 2 * w)
    ensures NearestQuotient(vx, vy) == if sy < 2 * a || (2 * a == sy && low % 2 != 0) then q + 1 else q
  {
    AddEven(q % REMQUO_MODULUS, 64 * (q / REMQUO_MODULUS));
  }

  lemma RestOfChoice(vx: int, vy: int, q: int, w: int, up: bool)
    requires 0 <= vx && 0 < vy && q == vx / vy && w == vx % vy && NearestQuotient(vx, vy) == if up then q + 1 else q
    ensures Rest(vx, vy) == if up then w - vy else w
  {
    hide NearestQuotient;
    DivMod(vx, vy);
    Distribute(q, 1, vy);
  }

  lemma LowOfChoice(q: nat, n: nat, low: nat, up: bool)
    requires low == q % REMQUO_MODULUS && n == if up then q + 1 else q
    ensures n % REMQUO_MODULUS == if up then (low + 1) % REMQUO_MODULUS else low
  {
    LowBit(q);
  }

  /** What the choice means for the values. */
  lemma ChoiceMeans(x: nat, y: nat, r: Reduction, a: nat, sy: nat)
    requires Reduced(x, y, r, a, sy)
    ensures var up, k, w := GoesUp(r, a, sy), r.divisorExponent + UNIT_EXPONENT, V(x) % V(y);
      && 0 <= w < V(y) && Rest(V(x), V(y)) == (if up then w - V(y) else w)
      && Scaled(if up then sy - a else a, k, if up then V(y) - w else w)
      && NearestQuotient(V(x), V(y)) % REMQUO_MODULUS == if up then (r.quotientLow + 1) % REMQUO_MODULUS else r.quotientLow
  {
    HalfDecides(x, y, r, a, sy);
    DivMod(V(x), V(y));
    DivNat(V(x), V(y));
    hide V, Value, InUnits, Scaled, Rest, NearestQuotient;
    var q, w := V(x) / V(y), V(x) % V(y);
    UpIsNearest(V(x), V(y), q, w, r.quotientLow, a, sy);
    RestOfChoice(V(x), V(y), q, w, GoesUp(r, a, sy));
    LowOfChoice(q, NearestQuotient(V(x), V(y)), r.quotientLow, GoesUp(r, a, sy));
  }

  /** The significand that was chosen, and the magnitude that it stands for. */
  ghost predicate Chosen(unit: int, exponent: int, n: int, w: int, vy: int, rest: int) {
    && InUnits(unit, n) && Abs(n) < LIMIT && Scaled(Abs(n), exponent + UNIT_EXPONENT, w) && 0 <= w <= vy
    && rest == Sign(unit < 0, w)
  }

  lemma ChosenIs(unit: int, exponent: int, a: nat, sy: nat, up: bool, w: int, vy: int, rest: int)
    requires InUnits(unit, if up then a - sy else a) && a < sy < LIMIT && 0 <= w < vy
    requires Scaled(if up then sy - a else a, exponent + UNIT_EXPONENT, if up then vy - w else w)
    requires rest == if up then w - vy else w
    ensures Chosen(unit, exponent, if up then a - sy else a, if up then vy - w else w, vy, rest)
  {
    UnitSign(unit, if up then a - sy else a);
    hide InUnits, Scaled;
  }

  /** The branch for |x| > |y|. */
  method Far(x: nat, y: nat, mode: Mode) returns (result: Float, quotient: nat)
    requires Finite(DOUBLE, x) && Finite(DOUBLE, y) && 0 < y && V(y) < V(x) && V(y) < TopOf()
    ensures 0 < V(y) && Doubles.Signed(DOUBLE, result) == Rest(V(x), V(y)) && quotient == NearestQuotient(V(x), V(y)) % REMQUO_MODULUS
  {
    var r, a, sy := ReducePositive(x, y);
    ChoiceMeans(x, y, r, a, sy);
    assert 0 < V(y) && a < sy < LIMIT && InUnits(r.remainderUnit, a) && InUnits(r.divisorUnit, sy);
    ghost var w: int, vy: int, rest := V(x) % V(y), V(y), Rest(V(x), V(y));
    hide *;
    var unit;
    ghost var up;
    unit, quotient, up := Choose(r, a, sy);
    ghost var n: int := if up then a - sy else a;
    ChosenIs(unit, r.divisorExponent, a, sy, up, w, vy, rest);
    result := ScaleChosen(unit, r.divisorExponent, mode, n, if up then vy - w else w, vy, rest);
  }

  method ScaleChosen(unit: int, exponent: int, mode: Mode, ghost n: int, ghost w: int, ghost vy: int, ghost rest: int) returns (result: Float)
    requires Chosen(unit, exponent, n, w, vy, rest) && vy < TopOf()
    ensures Doubles.Signed(DOUBLE, result) == rest
  {
    hide Value, TopOf, InUnits, Scaled;
    result := ScaleBack(unit, exponent, mode, n, w);
  }

  lemma UnitSign(v: int, n: int)
    requires InUnits(v, n)
    ensures v < 0 <==> n < 0
  {
    MulOrder(n, 0, Pow2(UNIT_EXPONENT));
  }

  /** What remainder_finite and remquo return: the exact rest after the nearest multiple, with the sign
      of x turned over it and a zero signed like x, and the low bits of the multiple with the sign of the quotient. */
  ghost predicate RemainderOutcome(x: Float, y: Float, r: Float, quotient: int)
    requires 0 < V(y.magnitude)
  {
    var vx: int, vy: int := V(x.magnitude), V(y.magnitude);
    var n := NearestQuotient(vx, vy);
    && Doubles.Signed(DOUBLE, r) == Sign(x.negative, Rest(vx, vy)) && (Rest(vx, vy) == 0 ==> r == Float(x.negative, 0))
    && quotient == Sign(x.negative != y.negative, n % REMQUO_MODULUS)
  }

  /** remainder_finite. */
  method RemainderFinite(x: Float, y: Float, mode: Mode) returns (r: Float, quotient: int)
    requires Operands(x, y)
    ensures 0 < V(y.magnitude) && RemainderOutcome(x, y, r, quotient)
  {
    DivisorPositive(x, y);
    var low: nat;
    var result: Float;
    if V(x.magnitude) < V(y.magnitude) {
      var value;
      value, low := Near(x.magnitude, y.magnitude);
      ValueOfBits(Abs(value));
      result := Float(value < 0, ToBits(Abs(value)));
    } else if V(x.magnitude) == V(y.magnitude) {
      EqualRest(V(x.magnitude));
      result, low := Float(false, 0), 1;
    } else {
      result, low := Far(x.magnitude, y.magnitude, mode);
    }
    r := Float(result.negative != x.negative, result.magnitude);
    if r.magnitude == 0 {
      r := Float(x.negative, 0);
    }
    var q := low % REMQUO_MODULUS;
    quotient := if x.negative != y.negative then -q else q;
    Ordered(DOUBLE, 0, r.magnitude);
  }

  /** What section 7.12.10.2 of C11 asks: no other multiple of y is nearer to x, and of two equally
      near the even one is taken. */
  lemma RemainderMeans(x: Float, y: Float, r: Float, quotient: int, n: nat, other: int)
    requires 0 < V(y.magnitude) && RemainderOutcome(x, y, r, quotient) && n == NearestQuotient(V(x.magnitude), V(y.magnitude))
    ensures var signed := Sign(x.negative != y.negative, n); var vx, vy, d := Doubles.Signed(DOUBLE, x), Doubles.Signed(DOUBLE, y), Doubles.Signed(DOUBLE, r);
      && d == vx - signed * vy && Abs(d) <= Abs(vx - other * vy)
      && (other != signed && Abs(d) == Abs(vx - other * vy) ==> signed % 2 == 0)
      && (signed - quotient) % REMQUO_MODULUS == 0 && Abs(quotient) < REMQUO_MODULUS && (quotient < 0 ==> signed < 0) && (0 < quotient ==> 0 < signed)
  {
    var vx: int, vy: int := V(x.magnitude), V(y.magnitude);
    var turned := Sign(x.negative != y.negative, other);
    NearestMeans(vx, vy);
    NoNearer(vx, vy, n, turned);
    SignedLow(n, x.negative != y.negative);
    hide *;
    Turned(x.negative, y.negative, vx, vy, n);
    Turned(x.negative, y.negative, vx, vy, turned);
    TurnedBack(x.negative != y.negative, n, other);
    assert Doubles.Signed(DOUBLE, r) == Sign(x.negative, vx - n * vy);
  }

  /** Turning x and y over turns the rest over. */
  lemma Turned(a: bool, b: bool, vx: int, vy: int, k: int)
    ensures Sign(a, vx - k * vy) == Sign(a, vx) - Sign(a != b, k) * Sign(b, vy)
    ensures Abs(Sign(a, vx - k * vy)) == Abs(vx - k * vy)
  {
    SignProduct(a, b, k, vy);
  }

  lemma TurnedBack(s: bool, n: int, other: int)
    ensures Sign(s, Sign(s, other)) == other && (Sign(s, n) == other <==> n == Sign(s, other)) && (Sign(s, n) % 2 == 0 <==> n % 2 == 0)
  {
  }

  lemma NoNearer(vx: int, vy: int, n: int, k: int)
    requires 0 < vy && -vy <= 2 * (vx - n * vy) <= vy
    ensures Abs(vx - n * vy) <= Abs(vx - k * vy)
    ensures k != n && Abs(vx - n * vy) == Abs(vx - k * vy) ==> 2 * (vx - n * vy) == vy || 2 * (vx - n * vy) == -vy
  {
    Distribute(n, k, vy);
    Positive(n - k, vy);
    Positive(k - n, vy);
    Distribute(k, n, vy);
  }

  lemma SignedLow(n: nat, negative: bool)
    ensures (Sign(negative, n) - Sign(negative, n % REMQUO_MODULUS)) % REMQUO_MODULUS == 0
  {
    var j := n / REMQUO_MODULUS;
    ModShift(0, j);
    ModShift(0, -j);
  }

  lemma EqualRest(v: int)
    requires 0 < v
    ensures NearestQuotient(v, v) == 1 && Rest(v, v) == 0
  {
    Quotient(v, v, 1, 0);
  }

  // ----- NaNs, infinities and zeros

  function Infinity(): nat { TopField(DOUBLE) * Pow2(DOUBLE.bits) }

  predicate IsNaN(x: Float) { Infinity() < x.magnitude }

  predicate IsInfinite(x: Float) { x.magnitude == Infinity() }

  const QUIET_NAN := Float(false, 0x7FF8_0000_0000_0000)

  /** A NaN comes through, the first before the second; an infinite x or a zero y is a domain error;
      an infinite y leaves x alone. */
  ghost predicate Special(x: Float, y: Float, r: Float, error: bool) {
    && (IsNaN(x) ==> r == x) && (!IsNaN(x) && IsNaN(y) ==> r == y)
    && (error <==> !IsNaN(x) && !IsNaN(y) && (IsInfinite(x) || y.magnitude == 0)) && (error ==> r == QUIET_NAN && IsNaN(r))
    && (!error && !IsNaN(x) && IsInfinite(y) ==> r == x)
  }

  lemma FiniteIs(x: Float)
    ensures Finite(DOUBLE, x.magnitude) <==> !IsNaN(x) && !IsInfinite(x)
  {
    FiniteBelow(x.magnitude);
    Ordered(DOUBLE, x.magnitude, Infinity());
  }

  lemma QuietIsNaN()
    ensures IsNaN(QUIET_NAN)
  {
    FractionBits();
  }

  /** fmod. */
  method FMod(x: Float, y: Float, mode: Mode) returns (r: Float, error: bool)
    ensures Special(x, y, r, error)
    ensures Operands(x, y) ==> 0 < V(y.magnitude) && FModOutcome(x, y, r)
  {
    FiniteIs(x);
    FiniteIs(y);
    QuietIsNaN();
    hide Finite, Infinity, V;
    if IsNaN(x) {
      return x, false;
    }
    if IsNaN(y) {
      return y, false;
    }
    if IsInfinite(x) || y.magnitude == 0 {
      return QUIET_NAN, true;
    }
    if IsInfinite(y) {
      return x, false;
    }
    if x.magnitude == 0 {
      ZeroDividend(x, y);
      return x, false;
    }
    r := FModFinite(x, y, mode);
    return r, false;
  }

  lemma ZeroDividend(x: Float, y: Float)
    requires Operands(x, y) && x.magnitude == 0
    ensures 0 < V(y.magnitude) && FModOutcome(x, y, x) && RemainderOutcome(x, y, x, 0)
  {
    DivisorPositive(x, y);
    Quotient(0, V(y.magnitude), 0, 0);
  }

  /** remquo; remainder is the same without the quotient. */
  method RemQuo(x: Float, y: Float, mode: Mode) returns (r: Float, quotient: int, error: bool)
    ensures Special(x, y, r, error)
    ensures if Operands(x, y) then 0 < V(y.magnitude) && RemainderOutcome(x, y, r, quotient) else quotient == 0
  {
    FiniteIs(x);
    FiniteIs(y);
    QuietIsNaN();
    hide Finite, Infinity, V, RemainderOutcome;
    quotient := 0;
    if IsNaN(x) {
      return x, 0, false;
    }
    if IsNaN(y) {
      return y, 0, false;
    }
    if IsInfinite(x) || y.magnitude == 0 {
      return QUIET_NAN, 0, true;
    }
    if IsInfinite(y) {
      return x, 0, false;
    }
    if x.magnitude == 0 {
      ZeroDividend(x, y);
      return x, 0, false;
    }
    r, quotient := RemainderFinite(x, y, mode);
    return r, quotient, false;
  }
}

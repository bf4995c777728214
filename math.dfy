/**
 Integer vectors and rectangles. Components are 32-bit signed integers; an
 operation whose exact result would leave that range is undefined in the
 original, so each operation requires its results to fit. Division follows
 C++: the quotient is truncated toward zero.
 */
module IntMath {

  /** A 32-bit signed integer. */
  type Int32 = v: int | -0x8000_0000 <= v <= 0x7FFF_FFFF

  predicate FitsInt32(v: int)
  {
    -0x8000_0000 <= v <= 0x7FFF_FFFF
  }

  function Abs(v: int): nat
  {
    if v < 0 then -v else v
  }

  /** C++ integer division: the quotient truncated toward zero, so that the
      remainder `a - q * b` is smaller than `b` in magnitude and has the sign
      of `a`. */
  function TruncDiv(a: int, b: int): (q: int)
    requires b != 0
    ensures Abs(a - q * b) < Abs(b)
    ensures a - q * b == 0 || (a - q * b < 0) == (a < 0)
  {
    var m := Abs(a) / Abs(b);
    var q := if (a < 0) == (b < 0) then m else -m;
    TruncDivRemainder(a, b, m, q);
    q
  }

  lemma TruncDivRemainder(a: int, b: int, m: int, q: int)
    requires b != 0 && m == Abs(a) / Abs(b)
    requires q == if (a < 0) == (b < 0) then m else -m
    ensures a - q * b == (if a < 0 then -(Abs(a) % Abs(b)) else Abs(a) % Abs(b))
  {
    var rem, p := Abs(a) % Abs(b), m * Abs(b);
    ProductSign(m, b, q, (a < 0) != (b < 0));
    DivModParts(Abs(a), Abs(b));
    RemainderFromParts(a, p, rem, q * b);
  }

  lemma RemainderFromParts(a: int, p: int, rem: int, qb: int)
    requires Abs(a) == p + rem
    requires qb == (if a < 0 then -p else p)
    ensures a - qb == (if a < 0 then -rem else rem)
  {
  }

  /** `q * b` is `m * |b|` with the sign the quotient and divisor give it. */
  lemma ProductSign(m: int, b: int, q: int, negated: bool)
    requires q == if negated then -m else m
    ensures q * b == (if (b < 0) == negated then m * Abs(b) else -(m * Abs(b)))
  {
    NegMul(m, b);
  }

  lemma DivModParts(x: nat, y: nat)
    requires y > 0
    ensures x == (x / y) * y + x % y
  {
  }

  lemma NegMul(m: int, b: int)
    ensures m * (-b) == -(m * b) && (-m) * b == -(m * b)
  {
  }

  lemma AbsMul(d: int, s: int)
    ensures Abs(d * s) == Abs(d) * Abs(s)
  {
    if d < 0 { NegMul(-d, s); }
    if s < 0 { NegMul(d, -s); }
  }

  lemma MulAtLeast(d: nat, s: nat)
    requires d >= 1
    ensures d * s >= s
  {
  }

  /** Truncation differs from Dafny's own (Euclidean) division exactly on
      negative dividends that are not multiples: -7 / 2 is -3 in C++. */
  lemma TruncDivOfNegative()
    ensures TruncDiv(-7, 2) == -3 && -7 / 2 == -4
    ensures TruncDiv(7, -2) == -3
    ensures TruncDiv(-8, 2) == -4 == -8 / 2
  {
  }

  /** A multiple divides back exactly. */
  lemma TruncDivOfMultiple(v: int, s: int)
    requires s != 0
    ensures TruncDiv(v * s, s) == v
  {
    var q := TruncDiv(v * s, s);
    assert v * s - q * s == (v - q) * s;
    if v != q {
      AbsMul(v - q, s);
      MulAtLeast(Abs(v - q), Abs(s));
      assert false;
    }
  }

  datatype Vec2DInt = Vec2DInt(x: Int32, y: Int32)

  /** An axis-aligned rectangle: corner, width and height. */
  datatype Rect = Rect(x: Int32, y: Int32, width: Int32, height: Int32)

  /** The vector a value-initialised `Vec2DInt` holds. */
  const ZeroVec := Vec2DInt(0, 0)

  /** `+`: componentwise; both sums must be representable. Adding leaves a
      vector unchanged exactly when the other operand is zero, and adding a
      vector with non-negative components never moves a component down. */
  function Add(a: Vec2DInt, b: Vec2DInt): (r: Vec2DInt)
    requires FitsInt32(a.x + b.x) && FitsInt32(a.y + b.y)
    ensures r == a <==> b == ZeroVec
    ensures b.x >= 0 && b.y >= 0 ==> r.x >= a.x && r.y >= a.y
  {
    Vec2DInt(a.x + b.x, a.y + b.y)
  }

  /** `-`: componentwise; both differences must be representable. The
      difference is zero exactly when the operands are equal, and it leaves
      the first operand unchanged exactly when the second is zero. */
  function Sub(a: Vec2DInt, b: Vec2DInt): (r: Vec2DInt)
    requires FitsInt32(a.x - b.x) && FitsInt32(a.y - b.y)
    ensures r == ZeroVec <==> a == b
    ensures r == a <==> b == ZeroVec
  {
    Vec2DInt(a.x - b.x, a.y - b.y)
  }

  /** `*` by a scalar: componentwise. Scaling by 1 is the identity, by 0
      gives zero, by -1 negates, and a non-zero scalar maps only the zero
      vector to zero. */
  function Scale(a: Vec2DInt, s: Int32): (r: Vec2DInt)
    requires FitsInt32(a.x * s) && FitsInt32(a.y * s)
    ensures s == 1 ==> r == a
    ensures s == 0 ==> r == ZeroVec
    ensures s == -1 ==> r == Vec2DInt(-a.x, -a.y)
    ensures s != 0 ==> (r == ZeroVec <==> a == ZeroVec)
  {
    Vec2DInt(a.x * s, a.y * s)
  }

  /** `/` by a scalar: componentwise, truncating toward zero. The only
      quotient that cannot be represented is the most negative value divided
      by -1. */
  function Div(a: Vec2DInt, s: Int32): (r: Vec2DInt)
    requires s != 0 && FitsInt32(TruncDiv(a.x, s)) && FitsInt32(TruncDiv(a.y, s))
    ensures Abs(a.x - r.x * s) < Abs(s) && Abs(a.y - r.y * s) < Abs(s)
    ensures a.x - r.x * s == 0 || (a.x - r.x * s < 0) == (a.x < 0)
    ensures a.y - r.y * s == 0 || (a.y - r.y * s < 0) == (a.y < 0)
  {
    Vec2DInt(TruncDiv(a.x, s), TruncDiv(a.y, s))
  }

  /** `==`: both components equal; this is exactly value equality. */
  function Eq(a: Vec2DInt, b: Vec2DInt): (r: bool)
    ensures r <==> a == b
  {
    a.x == b.x && a.y == b.y
  }

  /** `!=`: the negation of `==`. */
  function Ne(a: Vec2DInt, b: Vec2DInt): (r: bool)
    ensures r <==> a != b
  {
    !Eq(a, b)
  }

  /** Subtracting what was added gives back the original. */
  lemma AddSubRoundTrip(a: Vec2DInt, b: Vec2DInt)
    requires FitsInt32(a.x + b.x) && FitsInt32(a.y + b.y)
    ensures FitsInt32(Add(a, b).x - b.x) && FitsInt32(Add(a, b).y - b.y)
    ensures Sub(Add(a, b), b) == a
  {
  }

  /** Dividing by the scalar a vector was multiplied by gives it back. */
  lemma ScaleDivRoundTrip(a: Vec2DInt, s: Int32)
    requires s != 0 && FitsInt32(a.x * s) && FitsInt32(a.y * s)
    ensures FitsInt32(TruncDiv(Scale(a, s).x, s)) && FitsInt32(TruncDiv(Scale(a, s).y, s))
    ensures Div(Scale(a, s), s) == a
  {
    TruncDivOfMultiple(a.x, s);
    TruncDivOfMultiple(a.y, s);
  }

  /** A vector whose components the compound operators update in place. */
  class Vec2DIntVar {
    var x: Int32
    var y: Int32

    function Value(): Vec2DInt
      reads this
    {
      Vec2DInt(x, y)
    }

    constructor (v: Vec2DInt)
      ensures Value() == v
    {
      x, y := v.x, v.y;
    }

    /** `+=`: afterwards the vector equals the sum. */
    method AddAssign(other: Vec2DInt)
      requires FitsInt32(x + other.x) && FitsInt32(y + other.y)
      modifies this
      ensures Value() == Add(old(Value()), other)
    {
      x := x + other.x;
      y := y + other.y;
    }

    /** `-=`: afterwards the vector equals the difference. */
    method SubAssign(other: Vec2DInt)
      requires FitsInt32(x - other.x) && FitsInt32(y - other.y)
      modifies this
      ensures Value() == Sub(old(Value()), other)
    {
      x := x - other.x;
      y := y - other.y;
    }

    /** `*=`: afterwards the vector equals the scaled vector. */
    method ScaleAssign(s: Int32)
      requires FitsInt32(x * s) && FitsInt32(y * s)
      modifies this
      ensures Value() == Scale(old(Value()), s)
    {
      x := x * s;
      y := y * s;
    }

    /** `/=`: afterwards the vector equals the truncated quotient. */
    method DivAssign(s: Int32)
      requires s != 0 && FitsInt32(TruncDiv(x, s)) && FitsInt32(TruncDiv(y, s))
      modifies this
      ensures Value() == Div(old(Value()), s)
    {
      x := TruncDiv(x, s);
      y := TruncDiv(y, s);
    }
  }
}

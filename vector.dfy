/** Two-dimensional vectors over exact reals, standing in for pygame's
    Vector2. The library routines that are not algebra (the Euclidean
    length behind `length()` and `normalize()`, `math.radians`, `math.cos`
    and `math.sin`) are supplied as a `Numerics` value. The operations only
    compute with them; the lemmas rely on the properties listed in
    `Numerics.Valid` and `Numerics.OnUnitCircle`. */
module Vector {

  datatype Vec2 = Vec2(x: real, y: real)

  const Zero := Vec2(0.0, 0.0)

  function Add(a: Vec2, b: Vec2): Vec2 { Vec2(a.x + b.x, a.y + b.y) }

  function Sub(a: Vec2, b: Vec2): Vec2 { Vec2(a.x - b.x, a.y - b.y) }

  function Scale(a: Vec2, k: real): Vec2 { Vec2(a.x * k, a.y * k) }

  function Dot(a: Vec2, b: Vec2): real { a.x * b.x + a.y * b.y }

  /** `Vector2(-v.y, v.x)`: the vector turned a quarter turn. */
  function Perp(a: Vec2): Vec2 { Vec2(-a.y, a.x) }

  function Abs(x: real): real { if x < 0.0 then -x else x }

  /** The external numeric routines. `length` is `Vector2.length()`, the
      Euclidean length; `degToRad` is pi/180, so `math.radians(d)` is
      `d * degToRad`; `cos` and `sin` are `math.cos` and `math.sin`. */
  datatype Numerics = Numerics(length: Vec2 -> real, degToRad: real, cos: real -> real, sin: real -> real)
  {
    /** What the model assumes of the length: it is non-negative, zero only
        for the zero vector, and its square is the dot product of the vector
        with itself; and pi/180 is positive. */
    ghost predicate Valid() {
      degToRad > 0.0 && forall v :: Euclidean(v)
    }

    /** The length of one vector is its Euclidean norm. */
    ghost predicate Euclidean(v: Vec2) {
      && 0.0 <= length(v)
      && (length(v) == 0.0 <==> v == Zero)
      && length(v) * length(v) == Dot(v, v)
    }

    /** The one fact about the trigonometric routines that the model uses:
        `cos(t)^2 + sin(t)^2 == 1`. */
    ghost predicate OnUnitCircle() {
      forall t :: cos(t) * cos(t) + sin(t) * sin(t) == 1.0
    }

    /** `math.radians`. */
    function Radians(deg: real): real { deg * degToRad }
  }

  /** `v.length()`. */
  function Length(v: Vec2, m: Numerics): real {
    m.length(v)
  }

  /** The length is the Euclidean norm. */
  lemma LengthFacts(v: Vec2, m: Numerics)
    requires m.Valid()
    ensures Length(v, m) >= 0.0 && (Length(v, m) == 0.0 <==> v == Zero)
    ensures Length(v, m) * Length(v, m) == Dot(v, v)
  {
    assert m.Euclidean(v);
  }

  /** Only the zero vector has length zero. */
  lemma LengthPositive(v: Vec2, m: Numerics)
    requires m.Valid() && v != Zero
    ensures Length(v, m) > 0.0
  {
    LengthFacts(v, m);
  }

  lemma ScaleScale(v: Vec2, a: real, b: real)
    ensures Scale(Scale(v, a), b) == Scale(v, a * b)
  {
    assert v.x * a * b == v.x * (a * b) && v.y * a * b == v.y * (a * b);
  }

  lemma ScaleDot(a: Vec2, k: real, b: Vec2)
    ensures Dot(Scale(a, k), b) == k * Dot(a, b)
  {
    assert a.x * k * b.x + a.y * k * b.y == k * (a.x * b.x + a.y * b.y);
  }

  lemma SubZero(p: Vec2, q: Vec2)
    requires Sub(p, q) == Zero
    ensures p == q
  {
  }

  /** Two points at distance zero are the same point. */
  lemma SamePoint(p: Vec2, q: Vec2, m: Numerics)
    requires m.Valid() && Length(Sub(p, q), m) == 0.0
    ensures p == q
  {
    LengthFacts(Sub(p, q), m);
    SubZero(p, q);
  }

  lemma SquareLess(a: real, b: real)
    requires 0.0 <= a < b
    ensures a * a < b * b
  {
    var aa, ab, bb := a * a, a * b, b * b;
    assert aa <= ab;
    assert ab < bb;
  }

  /** Only the zero vector has a zero dot product with itself. */
  lemma DotSelfPositive(v: Vec2)
    requires v != Zero
    ensures Dot(v, v) > 0.0
  {
    assert v.x != 0.0 || v.y != 0.0;
    calc {
      Dot(v, v);
    ==
      v.x * v.x + v.y * v.y;
    >
      0.0;
    }
  }

  /** Two non-negative numbers with the same square are equal. */
  lemma SquareRootUnique(a: real, b: real)
    requires 0.0 <= a && 0.0 <= b && a * a == b * b
    ensures a == b
  {
    if a < b { SquareLess(a, b); }
    if b < a { SquareLess(b, a); }
  }

  /** Turning a vector a quarter turn keeps its length. */
  lemma PerpLength(v: Vec2, m: Numerics)
    requires m.Valid()
    ensures Length(Perp(v), m) == Length(v, m)
    ensures Dot(Perp(v), v) == 0.0
  {
    LengthFacts(v, m);
    LengthFacts(Perp(v), m);
    assert Dot(Perp(v), Perp(v)) == Dot(v, v);
    SquareRootUnique(Length(Perp(v), m), Length(v, m));
  }

  /** Scaling a vector by `k` scales its length by `|k|`. */
  lemma LengthScale(v: Vec2, k: real, m: Numerics)
    requires m.Valid()
    ensures Length(Scale(v, k), m) == Abs(k) * Length(v, m)
  {
    LengthFacts(v, m);
    LengthFacts(Scale(v, k), m);
    ScaleSquare(v, k);
    AbsSquare(k, Length(v, m));
    SquareRootUnique(Length(Scale(v, k), m), Abs(k) * Length(v, m));
  }

  lemma ScaleSquare(v: Vec2, k: real)
    ensures Dot(Scale(v, k), Scale(v, k)) == k * k * Dot(v, v)
  {
    assert v.x * k * (v.x * k) == k * k * (v.x * v.x);
    assert v.y * k * (v.y * k) == k * k * (v.y * v.y);
  }

  lemma AbsSquare(k: real, l: real)
    requires 0.0 <= l
    ensures 0.0 <= Abs(k) * l && (Abs(k) * l) * (Abs(k) * l) == k * k * (l * l)
  {
    assert Abs(k) * Abs(k) == k * k;
    assert (Abs(k) * l) * (Abs(k) * l) == (Abs(k) * Abs(k)) * (l * l);
  }

  /** `v.normalize()`, which pygame refuses for a vector of length zero. */
  function Normalize(v: Vec2, m: Numerics): Vec2
    requires Length(v, m) != 0.0
  {
    Scale(v, 1.0 / Length(v, m))
  }

  /** A normalized vector has length 1. */
  lemma NormalizeUnit(v: Vec2, m: Numerics)
    requires m.Valid() && Length(v, m) != 0.0
    ensures Length(Normalize(v, m), m) == 1.0 && Dot(Normalize(v, m), Normalize(v, m)) == 1.0
  {
    var l := Length(v, m);
    LengthFacts(v, m);
    assert Abs(1.0 / l) == 1.0 / l;
    LengthScale(v, 1.0 / l, m);
    LengthFacts(Normalize(v, m), m);
  }

  /** Rescaling a normalized vector by the original length gives it back. */
  lemma NormalizeTimesLength(v: Vec2, m: Numerics)
    requires Length(v, m) != 0.0
    ensures Scale(Normalize(v, m), Length(v, m)) == v
  {
    var l := Length(v, m);
    assert (1.0 / l) * l == 1.0;
  }

  /** The speed limit applied after every velocity change: a vector longer
      than `max` is replaced by `v.normalize() * max`. */
  function ClampSpeed(v: Vec2, max: real, m: Numerics): Vec2
    requires max > 0.0
  {
    if Length(v, m) > max then Scale(Normalize(v, m), max) else v
  }

  /** The clamped vector is within the limit; a vector over the limit
      becomes the vector of length exactly `max` pointing the same way, and
      a vector within the limit is left as it is. */
  lemma ClampSpeedFacts(v: Vec2, max: real, m: Numerics)
    requires m.Valid() && max > 0.0
    ensures Length(ClampSpeed(v, max, m), m) <= max
    ensures Length(v, m) > max ==>
      Length(ClampSpeed(v, max, m), m) == max && ClampSpeed(v, max, m) == Scale(v, max / Length(v, m))
    ensures Length(v, m) <= max ==> ClampSpeed(v, max, m) == v
  {
    var l := Length(v, m);
    if l > max {
      var u := Normalize(v, m);
      assert Scale(u, max) == Scale(v, max / l);
      assert Abs(max / l) == max / l;
      LengthScale(v, max / l, m);
      assert (max / l) * l == max;
    }
  }

  /** Clamping a vector that is already within the limit changes nothing,
      so applying the limit twice is applying it once. */
  lemma ClampSpeedIdempotent(v: Vec2, max: real, m: Numerics)
    requires m.Valid() && max > 0.0
    ensures ClampSpeed(ClampSpeed(v, max, m), max, m) == ClampSpeed(v, max, m)
  {
    ClampSpeedFacts(v, max, m);
    ClampSpeedFacts(ClampSpeed(v, max, m), max, m);
  }

  /** `v.reflect(n)` for a unit normal `n`. */
  function Reflect(v: Vec2, n: Vec2): Vec2 {
    Sub(v, Scale(n, 2.0 * Dot(v, n)))
  }

  /** Reflection about a unit normal negates the normal component and
      keeps the tangential one. */
  lemma ReflectComponents(v: Vec2, n: Vec2)
    requires Dot(n, n) == 1.0
    ensures Dot(Reflect(v, n), n) == -Dot(v, n)
    ensures Dot(Reflect(v, n), Perp(n)) == Dot(v, Perp(n))
  {
    var d := Dot(v, n);
    assert Dot(Reflect(v, n), n) == d - 2.0 * d * Dot(n, n);
  }

  /** Reflection about a unit normal keeps the length. */
  lemma ReflectLength(v: Vec2, n: Vec2, m: Numerics)
    requires m.Valid() && Dot(n, n) == 1.0
    ensures Length(Reflect(v, n), m) == Length(v, m)
  {
    var d := Dot(v, n);
    var r := Reflect(v, n);
    var dd := d * d;
    calc {
      Dot(r, r);
      (v.x - n.x * (2.0 * d)) * (v.x - n.x * (2.0 * d)) + (v.y - n.y * (2.0 * d)) * (v.y - n.y * (2.0 * d));
      Dot(v, v) - 4.0 * dd + 4.0 * dd * Dot(n, n);
      Dot(v, v);
    }
    LengthFacts(v, m);
    LengthFacts(r, m);
    SquareRootUnique(Length(r, m), Length(v, m));
  }
}

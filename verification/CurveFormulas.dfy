/** The point formulas of the X25519 ladder (interserver_transport.py). They are shown to be the
    projective doubling and differential addition polynomials of the curve of section 4.1 of
    RFC 7748; its group law is not modelled. */
module CurveFormulas {
  import opened Octets

  const A24: nat := 121665
  const PRIME: nat := 0x7fff_ffff_ffff_ffff_ffff_ffff_ffff_ffff_ffff_ffff_ffff_ffff_ffff_ffff_ffff_ffed

  /** The prime is 2^255 - 19. */
  lemma {:induction false} PrimeValue()
    ensures PRIME == Pow2(255) - 19 && Pow2(256) == 2 * Pow2(255)
  {
    SmallPowers();
    hide Pow2;
    Pow2Add(8, 8);
    Pow2Add(16, 16);
    Pow2Add(32, 32);
    Pow2Add(64, 64);
    Pow2Add(128, 128);
    Pow2Add(1, 255);
  }

  datatype Point = Point(x: nat, z: nat)

  function Sub(a: int, b: int): nat { (a - b) % PRIME }

  function Mul(a: int, b: int): nat { (a * b) % PRIME }

  function Square(a: int): nat { Mul(a, a) }

  function Double(q: Point): Point {
    var aa := Square((q.x + q.z) % PRIME);
    var bb := Square(Sub(q.x, q.z));
    var e := Sub(aa, bb);
    Point(Mul(aa, bb), Mul(e, (aa + A24 * e) % PRIME))
  }

  /** Differential addition; x1 is the abscissa of the difference. */
  function Add(x1: nat, q: Point, r: Point): Point {
    var da := Mul(Sub(r.x, r.z), (q.x + q.z) % PRIME);
    var cb := Mul((r.x + r.z) % PRIME, Sub(q.x, q.z));
    Point(Square((da + cb) % PRIME), Mul(x1, Square(Sub(da, cb))))
  }

  lemma {:induction false} MulCommutes(a: int, b: int)
    ensures Mul(a, b) == Mul(b, a)
  {
    assert a * b == b * a;
  }

  lemma {:induction false} Opposite(a: int, b: int)
    ensures Sub(b, a) == if Sub(a, b) == 0 then 0 else PRIME - Sub(a, b)
  {
  }

  lemma {:induction false} SquareOfOpposite(u: nat, m: nat)
    requires 0 < u < m
    ensures ((m - u) * (m - u)) % m == (u * u) % m
  {
    var r := (u * u) % m;
    var q := (u * u) / m;
    assert u * u == m * q + r;
    assert (m - u) * (m - u) == m * m - 2 * (m * u) + u * u;
    assert m * (m - 2 * u + q) == m * m - 2 * (m * u) + m * q;
    DropMultiple(r, m, m - 2 * u + q);
    DropMultiple(r, m, q);
  }

  /** Differential addition does not depend on the order of its points. */
  lemma {:induction false} AddSymmetric(x1: nat, q: Point, r: Point)
    ensures Add(x1, q, r) == Add(x1, r, q)
  {
    var da := Mul(Sub(r.x, r.z), (q.x + q.z) % PRIME);
    var cb := Mul((r.x + r.z) % PRIME, Sub(q.x, q.z));
    MulCommutes(Sub(r.x, r.z), (q.x + q.z) % PRIME);
    MulCommutes((r.x + r.z) % PRIME, Sub(q.x, q.z));
    Opposite(da, cb);
    if Sub(da, cb) != 0 { SquareOfOpposite(Sub(da, cb), PRIME); }
    assert Square(Sub(cb, da)) == Square(Sub(da, cb)) by { hide Sub; }
    hide Sub, Square, Mul;
  }

  // ---- The formulas as polynomials ---------------------------------------------------------------------------

  /** The coefficient of the curve. */
  const CURVE_A: nat := 486662

  predicate Same(a: int, b: int, m: nat)
    requires m > 0
  {
    a % m == b % m
  }

  lemma {:induction false} SameBy(a: int, b: int, m: nat, k: int)
    requires m > 0 && a == b + m * k
    ensures Same(a, b, m)
  {
    var q, r := b / m, b % m;
    assert b == m * q + r;
    assert a == r + m * (q + k) by { assert m * (q + k) == m * q + m * k; }
    DropMultiple(r, m, q + k);
  }

  lemma {:induction false} SameGap(a: int, b: int, m: nat) returns (k: int)
    requires m > 0 && Same(a, b, m)
    ensures a == b + m * k
  {
    k := a / m - b / m;
    assert a == m * (a / m) + a % m && b == m * (b / m) + b % m;
    assert m * k == m * (a / m) - m * (b / m);
  }

  lemma {:induction false} SameMod(a: int, m: nat)
    requires m > 0
    ensures Same(a % m, a, m)
  {
    assert a % m == a + m * (-(a / m));
    SameBy(a % m, a, m, -(a / m));
  }

  lemma {:induction false} SameTimes(a: int, b: int, c: int, d: int, m: nat)
    requires m > 0 && Same(a, b, m) && Same(c, d, m)
    ensures Same(a * c, b * d, m)
  {
    var k := SameGap(a, b, m);
    var l := SameGap(c, d, m);
    ProductGap(b, d, m, k, l);
    SameBy(a * c, b * d, m, k * d + b * l + m * k * l);
  }

  lemma {:induction false} ProductGap(b: int, d: int, m: int, k: int, l: int)
    ensures (b + m * k) * (d + m * l) == b * d + m * (k * d + b * l + m * k * l)
  {
    calc {
      (b + m * k) * (d + m * l);
      b * d + b * (m * l) + (m * k) * d + (m * k) * (m * l);
      { assert b * (m * l) == m * (b * l) && (m * k) * d == m * (k * d) && (m * k) * (m * l) == m * (m * k * l); }
      b * d + m * (b * l) + m * (k * d) + m * (m * k * l);
      b * d + m * (k * d + b * l + m * k * l);
    }
  }

  lemma {:induction false} SameSum(a: int, b: int, c: int, d: int, m: nat, f: int)
    requires m > 0 && Same(a, b, m) && Same(c, d, m)
    ensures Same(a + f * c, b + f * d, m)
  {
    var k := SameGap(a, b, m);
    var l := SameGap(c, d, m);
    assert f * (d + m * l) == f * d + m * (f * l);
    assert m * (k + f * l) == m * k + m * (f * l);
    SameBy(a + f * c, b + f * d, m, k + f * l);
  }

  lemma {:induction false} Squares(x: int, z: int)
    ensures (x + z) * (x + z) == x * x + 2 * (x * z) + z * z
    ensures (x - z) * (x - z) == x * x - 2 * (x * z) + z * z
    ensures ((x + z) * (x + z)) * ((x - z) * (x - z)) == (x * x - z * z) * (x * x - z * z)
  {
    assert (x + z) * (x - z) == x * x - z * z;
    assert ((x + z) * (x + z)) * ((x - z) * (x - z)) == ((x + z) * (x - z)) * ((x + z) * (x - z)) by {
      var a, b := x + z, x - z;
      FourFactors(a, b);
    }
  }

  lemma {:induction false} FourFactors(a: int, b: int)
    ensures (a * a) * (b * b) == (a * b) * (a * b)
  {
    assert (a * a) * (b * b) == a * (a * (b * b)) == a * (b * (a * b)) == (a * b) * (a * b);
  }

  lemma {:induction false} MulSame(a: int, b: int, c: int, d: int)
    requires Same(a, b, PRIME) && Same(c, d, PRIME)
    ensures Same(Mul(a, c), b * d, PRIME)
  {
    SameTimes(a, b, c, d, PRIME);
    SameMod(a * c, PRIME);
  }

  lemma {:induction false} SubSame(a: int, b: int, c: int, d: int)
    requires Same(a, b, PRIME) && Same(c, d, PRIME)
    ensures Same(Sub(a, c), b - d, PRIME)
  {
    SameSum(a, b, c, d, PRIME, -1);
    SameMod(a - c, PRIME);
  }

  /** Doubling is the doubling of the Montgomery curve with coefficient 486662, of which A24 is
      (A - 2) / 4: (x^2 - z^2)^2 over 4xz(x^2 + Axz + z^2). */
  lemma {:induction false} DoubleFormula(q: Point)
    ensures var x, z := q.x, q.z;
      && Same(Double(q).x, (x * x - z * z) * (x * x - z * z), PRIME)
      && Same(Double(q).z, (4 * (x * z)) * (x * x + CURVE_A * (x * z) + z * z), PRIME)
  {
    var x, z := q.x, q.z;
    var sum, difference := x + z, x - z;
    var aa, bb := Square(sum % PRIME), Square(Sub(x, z));
    var e := Sub(aa, bb);
    assert Double(q) == Point(Mul(aa, bb), Mul(e, (aa + A24 * e) % PRIME));
    assert Square(sum % PRIME) == Mul(sum % PRIME, sum % PRIME) && Square(Sub(x, z)) == Mul(Sub(x, z), Sub(x, z));
    hide Double, Square, Mul, Sub, Same;
    SameMod(sum, PRIME);
    MulSame(sum % PRIME, sum, sum % PRIME, sum);
    SameRefl(x);
    SameRefl(z);
    SubSame(x, x, z, z);
    MulSame(Sub(x, z), difference, Sub(x, z), difference);
    MulSame(aa, sum * sum, bb, difference * difference);
    Squares(x, z);
    SubSame(aa, sum * sum, bb, difference * difference);
    assert sum * sum - difference * difference == 4 * (x * z);
    SameSum(aa, sum * sum, e, 4 * (x * z), PRIME, A24);
    assert sum * sum + A24 * (4 * (x * z)) == x * x + CURVE_A * (x * z) + z * z;
    SameMod(aa + A24 * e, PRIME);
    SameTrans((aa + A24 * e) % PRIME, aa + A24 * e, sum * sum + A24 * (4 * (x * z)));
    MulSame(e, 4 * (x * z), (aa + A24 * e) % PRIME, x * x + CURVE_A * (x * z) + z * z);
  }

  lemma {:induction false} SameRefl(a: int)
    ensures Same(a, a, PRIME)
  {
  }

  lemma {:induction false} SameTrans(a: int, b: int, c: int)
    requires Same(a, b, PRIME) && Same(b, c, PRIME)
    ensures Same(a, c, PRIME)
  {
  }

  lemma {:induction false} Crossed(x: int, z: int, u: int, w: int)
    ensures (u - w) * (x + z) + (u + w) * (x - z) == 2 * (x * u - z * w)
    ensures (u - w) * (x + z) - (u + w) * (x - z) == 2 * (u * z - x * w)
  {
    assert (u - w) * (x + z) == u * x + u * z - w * x - w * z;
    assert (u + w) * (x - z) == u * x - u * z + w * x - w * z;
  }

  /** Differential addition: 4(xu - zw)^2 over x1 times 4(uz - xw)^2. */
  lemma {:induction false} AddFormula(x1: nat, q: Point, r: Point)
    ensures var sum, cross := 2 * (q.x * r.x - q.z * r.z), 2 * (r.x * q.z - q.x * r.z);
      && Same(Add(x1, q, r).x, sum * sum, PRIME)
      && Same(Add(x1, q, r).z, x1 * (cross * cross), PRIME)
  {
    var x, z, u, w := q.x, q.z, r.x, r.z;
    var da := Mul(Sub(u, w), (x + z) % PRIME);
    var cb := Mul((u + w) % PRIME, Sub(x, z));
    var total := (da + cb) % PRIME;
    var gap := Sub(da, cb);
    assert Add(x1, q, r) == Point(Square(total), Mul(x1, Square(gap)));
    assert Square(total) == Mul(total, total) && Square(gap) == Mul(gap, gap);
    hide Add, Square, Mul, Sub, Same;
    SameRefl(x);
    SameRefl(z);
    SameRefl(u);
    SameRefl(w);
    SameRefl(x1);
    SubSame(u, u, w, w);
    SubSame(x, x, z, z);
    SameMod(x + z, PRIME);
    SameMod(u + w, PRIME);
    MulSame(Sub(u, w), u - w, (x + z) % PRIME, x + z);
    MulSame((u + w) % PRIME, u + w, Sub(x, z), x - z);
    var left, right := (u - w) * (x + z), (u + w) * (x - z);
    Crossed(x, z, u, w);
    SameSum(da, left, cb, right, PRIME, 1);
    SameMod(da + cb, PRIME);
    SameTrans(total, da + cb, left + right);
    MulSame(total, left + right, total, left + right);
    SubSame(da, left, cb, right);
    MulSame(gap, left - right, gap, left - right);
    MulSame(x1, x1, Mul(gap, gap), (left - right) * (left - right));
  }
}

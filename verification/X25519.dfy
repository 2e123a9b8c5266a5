/** The X25519 public key computation (interserver_transport.py; section 5 of RFC 7748): the
    swap-bit loop computes the plain branching ladder, which keeps the pair of multiples
    (n, n + 1) of the base point for the scalar bits n seen so far, and its result fits the
    32-byte encoding. */
module X25519 {
  import opened Wrappers
  import opened Octets
  import opened CurveFormulas

  // ---- Clamping ----------------------------------------------------------------------------------------

  /** The bitwise operators on non-negative integers. */
  function And(a: nat, b: nat): (r: nat)
    ensures r <= a && r <= b
  {
    if a == 0 || b == 0 then 0 else 2 * And(a / 2, b / 2) + (if a % 2 == 1 && b % 2 == 1 then 1 else 0)
  }

  function Or(a: nat, b: nat): nat {
    if a == 0 && b == 0 then 0 else 2 * Or(a / 2, b / 2) + (if a % 2 == 1 || b % 2 == 1 then 1 else 0)
  }

  lemma {:induction false} AndOdd(a: nat, m: nat)
    requires m > 0
    ensures And(a, 2 * m - 1) == 2 * And(a / 2, m - 1) + a % 2
  {
    assert (2 * m - 1) / 2 == m - 1 && (2 * m - 1) % 2 == 1;
  }

  /** A mask of n low ones keeps the remainder. */
  lemma {:induction false} AndLowMask(a: nat, n: nat)
    ensures And(a, Pow2(n) - 1) == a % Pow2(n)
    decreases n
  {
    if n == 0 {
      assert And(a, 0) == 0;
    } else {
      assert Pow2(n) == 2 * Pow2(n - 1);
      hide And, Pow2;
      var d := Pow2(n - 1);
      AndLowMask(a / 2, n - 1);
      AndOdd(a, d);
      HalfRemainder(a, d);
      var half := (a / 2) % d;
      assert And(a / 2, d - 1) == half;
      hide *;
    }
  }

  lemma {:induction false} HalfRemainder(a: nat, d: nat)
    requires d > 0
    ensures a % (2 * d) == 2 * ((a / 2) % d) + a % 2
  {
    var q, r := (a / 2) / d, (a / 2) % d;
    assert a / 2 == d * q + r;
    assert a == (2 * r + a % 2) + (2 * d) * q by { assert (2 * d) * q == 2 * (d * q); }
    DropMultiple(2 * r + a % 2, 2 * d, q);
  }

  lemma {:induction false} AndShifted(a: nat, b: nat)
    ensures And(a, 2 * b) == 2 * And(a / 2, b)
  {
  }

  lemma {:induction false} AndSelf(a: nat, n: nat)
    requires a < Pow2(n)
    ensures And(a, Pow2(n) - 1) == a
  {
    hide And, Pow2;
    AndLowMask(a, n);
    SmallRemainder(a, Pow2(n));
  }

  lemma {:induction false} SmallRemainder(a: nat, m: nat)
    requires a < m
    ensures a % m == a
  {
  }

  /** Masking with 248 drops the low three bits of a byte. */
  lemma {:induction false} And248(a: nat)
    requires a < 256
    ensures And(a, 248) == a / 8 * 8
  {
    AndShifted(a, 124);
    AndShifted(a / 2, 62);
    AndShifted(a / 4, 31);
    assert a / 2 / 2 == a / 4 && a / 4 / 2 == a / 8;
    assert Pow2(5) == 32;
    AndSelf(a / 8, 5);
  }

  lemma {:induction false} And127(a: nat)
    ensures And(a, 127) == a % 128
  {
    SmallPowers();
    AndLowMask(a, 7);
  }

  lemma {:induction false} OrShifted(a: nat, b: nat)
    ensures Or(a, 2 * b) == 2 * Or(a / 2, b) + a % 2
  {
  }

  /** Setting bit n of a number of n + 1 bits. */
  lemma {:induction false} OrBit(a: nat, n: nat)
    requires a < 2 * Pow2(n)
    ensures Or(a, Pow2(n)) == if a >= Pow2(n) then a else a + Pow2(n)
    decreases n
  {
    if n == 0 {
      assert a in {0, 1} && Or(a, 1) == 1;
    } else {
      assert Pow2(n) == 2 * Pow2(n - 1);
      OrShifted(a, Pow2(n - 1));
      hide Or, Pow2;
      OrBit(a / 2, n - 1);
    }
  }

  lemma {:induction false} Or64(a: nat)
    requires a < 128
    ensures Or(a, 64) == if a >= 64 then a else a + 64
  {
    SmallPowers();
    OrBit(a, 6);
  }

  /** The bytes a clamped key has at its two ends. */
  function First(b: byte): byte
  {
    And248(Value(b));
    AsByte(And(Value(b), 248))
  }

  function Last(b: byte): byte
  {
    And127(Value(b));
    Or64(And(Value(b), 127));
    AsByte(Or(And(Value(b), 127), 64))
  }

  function Clamped(key: Bytes): Bytes
    requires |key| == 32
  {
    key[0 := First(key[0])][31 := Last(key[31])]
  }

  lemma {:induction false} FirstValue(b: byte)
    ensures Value(First(b)) == Value(b) / 8 * 8
  {
    hide And;
    And248(Value(b));
  }

  lemma {:induction false} LastValue(b: byte)
    ensures Value(Last(b)) == if Value(b) % 128 >= 64 then Value(b) % 128 else Value(b) % 128 + 64
  {
    hide And, Or;
    And127(Value(b));
    Or64(And(Value(b), 127));
  }

  lemma {:induction false} LowBitsCleared(b: byte)
    ensures Value(First(b)) % 8 == 0 && First(First(b)) == First(b)
  {
    FirstValue(b);
    FirstValue(First(b));
    hide First;
  }

  lemma {:induction false} HighBitsSet(b: byte)
    ensures 64 <= Value(Last(b)) < 128 && Last(Last(b)) == Last(b)
  {
    LastValue(b);
    LastValue(Last(b));
    hide Last;
  }

  /** Clamping touches the two ends alone: the low three bits of the first byte are cleared, and of the last
      byte bit 7 is cleared and bit 6 set. */
  lemma {:induction false} ClampedBytes(key: Bytes, i: nat)
    requires |key| == 32 && i < 32
    ensures |Clamped(key)| == 32
    ensures 0 < i < 31 ==> Clamped(key)[i] == key[i]
    ensures Value(Clamped(key)[0]) == Value(key[0]) - Value(key[0]) % 8
    ensures Value(Clamped(key)[31]) == 64 + Value(key[31]) % 64
  {
    FirstValue(key[0]);
    LastValue(key[31]);
    EndsClamped(Value(key[0]), Value(key[31]));
    hide First, Last, Value;
  }

  lemma {:induction false} EndsClamped(first: nat, last: nat)
    ensures first / 8 * 8 == first - first % 8
    ensures (if last % 128 >= 64 then last % 128 else last % 128 + 64) == 64 + last % 64
  {
    assert last % 64 == (last % 128) % 64;
  }

  /** Clamping again changes nothing. */
  lemma {:induction false} ClampedTwice(key: Bytes)
    requires |key| == 32
    ensures Clamped(Clamped(key)) == Clamped(key)
  {
    LowBitsCleared(key[0]);
    HighBitsSet(key[31]);
  }

  /** A clamped key is a multiple of 8 with bit 254 set and bit 255 clear, so that its 255 bits
      are all of it. */
  lemma {:induction false} ClampedScalar(key: Bytes)
    requires |key| == 32
    ensures LittleEndian(Clamped(key)) % 8 == 0
    ensures Pow2(254) <= LittleEndian(Clamped(key)) < Pow2(255)
  {
    var data := Clamped(key);
    LowBitsCleared(key[0]);
    HighBitsSet(key[31]);
    assert data[0] == First(key[0]) && data[31] == Last(key[31]);
    hide Clamped, Value, Pow2;
    TopByte(data);
    LowDigits(data);
    hide *;
  }

  lemma {:induction false} LowDigits(data: Bytes)
    requires data != [] && Value(data[0]) % 8 == 0
    ensures LittleEndian(data) % 8 == 0
  {
    hide Value;
    var rest := LittleEndian(data[1..]);
    assert LittleEndian(data) == Value(data[0]) + 256 * rest;
    hide *;
    assert 256 * rest == 8 * (32 * rest);
  }

  lemma {:induction false} TopByte(data: Bytes)
    requires |data| == 32 && 64 <= Value(data[31]) < 128
    ensures Pow2(254) <= LittleEndian(data) < Pow2(255)
  {
    SmallPowers();
    hide LittleEndian, Value, Pow2;
    LittleEndianSplit(data);
    LittleEndianBound(data[..31]);
    Pow2Add(248, 6);
    Pow2Add(248, 7);
    Scaled(Pow2(248), 64, Value(data[31]));
    Scaled(Pow2(248), Value(data[31]) + 1, 128);
    assert Pow2(248) * (Value(data[31]) + 1) == Pow2(248) * Value(data[31]) + Pow2(248);
  }

  lemma {:induction false} Scaled(m: nat, a: nat, b: nat)
    requires a <= b
    ensures m * a <= m * b
  {
  }

  /** clamp_x25519_private edits a copy of the key in place. */
  method Clamp(key: Bytes) returns (clamped: Bytes)
    requires |key| == 32
    ensures clamped == Clamped(key)
  {
    var data := new byte[32](i requires 0 <= i < 32 => key[i]);
    assert data[..] == key;
    And248(Value(key[0]));
    And127(Value(key[31]));
    Or64(And(Value(key[31]), 127));
    data[0] := AsByte(And(Value(data[0]), 248));
    data[31] := AsByte(And(Value(data[31]), 127));
    data[31] := AsByte(Or(Value(data[31]), 64));
    clamped := data[..];
  }

  // ---- The ladder -------------------------------------------------------------------------------------------

  function Quotient(n: nat, d: nat): nat
    requires d > 0
  {
    n / d
  }

  function Bit(n: nat, i: nat): nat { Quotient(n, Pow2(i)) % 2 }

  /** The plain ladder: the pair after the top k of 255 bits. */
  function Ladder(x1: nat, scalar: nat, k: nat): (Point, Point)
    requires k <= 255
  {
    if k == 0 then (Point(1, 0), Point(x1, 1))
    else
      var (low, high) := Ladder(x1, scalar, k - 1);
      if Bit(scalar, 255 - k) == 0 then (Double(low), Add(x1, low, high))
      else (Add(x1, low, high), Double(high))
  }

  function ModPow(base: nat, exponent: nat): nat {
    if exponent == 0 then 1 % PRIME
    else
      var half := ModPow(base, exponent / 2);
      if exponent % 2 == 0 then Square(half) else Mul(Square(half), base)
  }

  function Power(base: nat, exponent: nat): nat { if exponent == 0 then 1 else base * Power(base, exponent - 1) }

  lemma {:induction false} PowerSum(base: nat, m: nat, n: nat)
    ensures Power(base, m + n) == Power(base, m) * Power(base, n)
    decreases n
  {
    if n > 0 {
      PowerSum(base, m, n - 1);
      assert m + n - 1 == m + (n - 1);
      Exchanged(base, Power(base, m), Power(base, n - 1));
    }
  }

  lemma {:induction false} Exchanged(a: nat, b: nat, c: nat)
    ensures a * (b * c) == b * (a * c)
  {
  }

  /** Square-and-multiply computes the power modulo the prime. */
  lemma {:induction false} ModPowIsPower(base: nat, exponent: nat)
    ensures Same(ModPow(base, exponent), Power(base, exponent), PRIME)
  {
    if exponent == 0 {
      SameMod(1, PRIME);
    } else {
      var h := exponent / 2;
      var half, root := ModPow(base, h), Power(base, h);
      ModPowIsPower(base, h);
      PowerSum(base, h, h);
      assert exponent % 2 == 1 ==> Power(base, exponent) == base * Power(base, exponent - 1);
      assert ModPow(base, exponent) == if exponent % 2 == 0 then Square(half) else Mul(Square(half), base);
      hide Same, Mul, Power, ModPow;
      MulSame(half, root, half, root);
      SameRefl(base);
      MulSame(Mul(half, half), root * root, base, base);
      assert Square(half) == Mul(half, half);
      assert (root * root) * base == base * (root * root);
      assert exponent == if exponent % 2 == 0 then h + h else h + h + 1;
    }
  }

  /** The affine abscissa; a zero z gives zero. */
  function Affine(q: Point, exponent: nat): nat { Mul(q.x, ModPow(q.z, exponent)) }

  /** The affine abscissa is x over z wherever z^(p-1) = 1. */
  lemma {:induction false} AffineMeans(q: Point)
    ensures Same(Affine(q, PRIME - 2), q.x * Power(q.z, PRIME - 2), PRIME)
    ensures Same(Power(q.z, PRIME - 1), 1, PRIME) ==> Same(q.z * Affine(q, PRIME - 2), q.x, PRIME)
  {
    var a, power := Affine(q, PRIME - 2), Power(q.z, PRIME - 2);
    assert Power(q.z, PRIME - 1) == q.z * power;
    assert a == Mul(q.x, ModPow(q.z, PRIME - 2));
    ModPowIsPower(q.z, PRIME - 2);
    hide Affine, Power, ModPow, Same, Mul;
    SameRefl(q.x);
    SameRefl(q.z);
    MulSame(q.x, q.x, ModPow(q.z, PRIME - 2), power);
    SameTimes(q.z, q.z, a, q.x * power, PRIME);
    Exchanged(q.z, q.x, power);
    if Same(q.z * power, 1, PRIME) {
      SameTimes(q.x, q.x, q.z * power, 1, PRIME);
      SameTrans(q.z * a, q.x * (q.z * power), q.x * 1);
    }
  }

  /** The public key of a 32-byte private key, by the plain ladder. */
  function PublicKeyOf(key: Bytes): Bytes
    requires |key| == 32
  {
    ToBytes(Affine(Ladder(9, LittleEndian(Clamped(key)), 255).0, PRIME - 2), 32)
  }

  // ---- What the ladder keeps -------------------------------------------------------------------------------

  /** The scalar bits seen after k steps, as a number. */
  function Seen(scalar: nat, k: nat): nat
    requires k <= 255
  {
    Quotient(scalar, Pow2(255 - k))
  }

  lemma {:induction false} Regroup(d: int, h: int, b: int, r: int)
    ensures d * (2 * h + b) + r == (2 * d) * h + (d * b + r)
  {
  }

  lemma {:induction false} HalfQuotient(n: nat, d: nat)
    requires d > 0
    ensures Quotient(n, d) / 2 == Quotient(n, 2 * d)
  {
    var q, r := Quotient(n, d), n % d;
    assert n == d * q + r;
    var h, b := q / 2, q % 2;
    assert q == 2 * h + b && b in {0, 1};
    Regroup(d, h, b, r);
    var rest := if b == 0 then r else d + r;
    assert n == (2 * d) * h + rest;
    QuotientUnique(n, 2 * d, h, rest);
  }

  lemma {:induction false} QuotientUnique(n: nat, m: nat, q: nat, r: nat)
    requires r < m && n == m * q + r
    ensures n / m == q
  {
    DropMultiple(r, m, q);
    assert n == m * (n / m) + r;
    assert m * (n / m) == m * q;
    assert m * (n / m - q) == 0;
  }

  lemma {:induction false} SeenGrows(scalar: nat, k: nat)
    requires 0 < k <= 255
    ensures Seen(scalar, k) == 2 * Seen(scalar, k - 1) + Bit(scalar, 255 - k)
  {
    HalfQuotient(scalar, Pow2(255 - k));
    assert Pow2(256 - k) == 2 * Pow2(255 - k);
  }

  /** Any reading of points as multiples of a base point with abscissa x1 that the formulas
      respect: rep(n, q) says that q stands for n times the base point. */
  ghost predicate Respected(rep: (nat, Point) -> bool, x1: nat) {
    && rep(0, Point(1, 0)) && rep(1, Point(x1, 1))
    && (forall n: nat, q :: rep(n, q) ==> rep(2 * n, Double(q)))
    && (forall n: nat, q, r :: rep(n, q) && rep(n + 1, r) ==> rep(2 * n + 1, Add(x1, q, r)))
  }

  /** After k steps the pair stands for n and n + 1 times the base point, n being the bits seen. */
  lemma {:induction false} LadderTracks(rep: (nat, Point) -> bool, x1: nat, scalar: nat, k: nat)
    requires Respected(rep, x1) && scalar < Pow2(255) && k <= 255
    ensures rep(Seen(scalar, k), Ladder(x1, scalar, k).0)
    ensures rep(Seen(scalar, k) + 1, Ladder(x1, scalar, k).1)
    decreases k
  {
    hide Double, Add, Bit, Pow2;
    if k > 0 {
      LadderTracks(rep, x1, scalar, k - 1);
      SeenGrows(scalar, k);
      assert Bit(scalar, 255 - k) in {0, 1} by { BitRange(scalar, 255 - k); }
      var n := Seen(scalar, k - 1);
      assert 2 * (n + 1) == 2 * n + 1 + 1;
    } else {
      SmallQuotient(scalar, Pow2(255));
    }
  }

  lemma {:induction false} BitRange(n: nat, i: nat)
    ensures Bit(n, i) in {0, 1}
  {
  }

  lemma {:induction false} SmallQuotient(n: nat, m: nat)
    requires n < m
    ensures n / m == 0
  {
  }

  lemma {:induction false} AllSeen(scalar: nat)
    ensures Seen(scalar, 255) == scalar
  {
    assert Pow2(0) == 1;
  }

  // ---- The swap-bit loop ---------------------------------------------------------------------------------------

  /** The arithmetic of one round: doubles (x2 : z2) and adds (x3 : z3) to it. */
  method Round(x1: nat, p2: Point, p3: Point) returns (q2: Point, q3: Point)
    ensures q2 == Double(p2) && q3 == Add(x1, p2, p3)
  {
    var a := (p2.x + p2.z) % PRIME;
    var aa := Mul(a, a);
    var b := Sub(p2.x, p2.z);
    var bb := Mul(b, b);
    var e := Sub(aa, bb);
    var c := (p3.x + p3.z) % PRIME;
    var d := Sub(p3.x, p3.z);
    var da := Mul(d, a);
    var cb := Mul(c, b);
    hide Mul, Sub;
    q3 := Point(Square((da + cb) % PRIME), Mul(x1, Square(Sub(da, cb))));
    q2 := Point(Mul(aa, bb), Mul(e, (aa + A24 * e) % PRIME));
  }

  lemma {:induction false} LadderStart(x1: nat, scalar: nat)
    ensures Ladder(x1, scalar, 0) == (Point(1, 0), Point(x1, 1))
  {
  }

  lemma {:induction false} LadderStep(x1: nat, scalar: nat, k: nat)
    requires k < 255
    ensures var (low, high) := Ladder(x1, scalar, k);
      Ladder(x1, scalar, k + 1) == if Bit(scalar, 254 - k) == 0 then (Double(low), Add(x1, low, high))
                                   else (Add(x1, low, high), Double(high))
  {
  }

  /** The swap-bit pair is the pair of the plain ladder, exchanged when the swap bit is set. */
  predicate Held(x1: nat, scalar: nat, k: nat, swap: nat, p2: Point, p3: Point)
    requires k <= 255
  {
    swap in {0, 1} && Ladder(x1, scalar, k) == if swap == 1 then (p3, p2) else (p2, p3)
  }

  lemma {:induction false} RoundKeeps(x1: nat, scalar: nat, k: nat, swap: nat, p2: Point, p3: Point)
    requires k < 255 && Held(x1, scalar, k, swap, p2, p3)
    ensures var current := Bit(scalar, 254 - k);
      var (a, b) := if (swap + current) % 2 == 1 then (p3, p2) else (p2, p3);
      Held(x1, scalar, k + 1, current, Double(a), Add(x1, a, b))
  {
    hide Double, Add, Bit, Ladder;
    var (low, high) := Ladder(x1, scalar, k);
    BitRange(scalar, 254 - k);
    LadderStep(x1, scalar, k);
    AddSymmetric(x1, low, high);
  }

  /** x25519_public_from_private: the swap of one round is undone together with the next. */
  method PublicFromPrivate(key: Bytes) returns (public: Option<Bytes>)
    ensures public == if |key| == 32 then Some(PublicKeyOf(key)) else None
  {
    if |key| != 32 { return None; }
    var clamped := Clamp(key);
    var scalar := LittleEndian(clamped);
    var x1: nat, p2, p3, swap: nat := 9, Point(1, 0), Point(9, 1), 0;
    LadderStart(x1, scalar);
    hide Double, Add, Clamped, LittleEndian, Affine, ToBytes, Bit, Ladder;
    for done := 0 to 255
      invariant Held(x1, scalar, done, swap, p2, p3)
    {
      var current := Bit(scalar, 254 - done);
      RoundKeeps(x1, scalar, done, swap, p2, p3);
      hide Held;
      swap := (swap + current) % 2;
      if swap == 1 { p2, p3 := p3, p2; }
      swap := current;
      p2, p3 := Round(x1, p2, p3);
    }
    if swap == 1 { p2, p3 := p3, p2; }
    public := Some(ToBytes(Affine(p2, PRIME - 2), 32));
  }

  /** The key of any private key stands for its clamped scalar: its 32 bytes decode to the residue
      of x times the power of z that inverts a z with z^(p-1) = 1 (section 5 of RFC 7748). */
  lemma {:induction false} PublicKeyMeans(rep: (nat, Point) -> bool, key: Bytes) returns (q: Point)
    requires |key| == 32 && Respected(rep, 9)
    ensures rep(LittleEndian(Clamped(key)), q)
    ensures |PublicKeyOf(key)| == 32
    ensures LittleEndian(PublicKeyOf(key)) < PRIME
    ensures Same(LittleEndian(PublicKeyOf(key)), q.x * Power(q.z, PRIME - 2), PRIME)
    ensures Same(Power(q.z, PRIME - 1), 1, PRIME) ==> Same(q.z * LittleEndian(PublicKeyOf(key)), q.x, PRIME)
  {
    hide ModPow, Ladder, Respected, Clamped;
    var scalar := LittleEndian(Clamped(key));
    ClampedScalar(key);
    LadderTracks(rep, 9, scalar, 255);
    AllSeen(scalar);
    q := Ladder(9, scalar, 255).0;
    PrimeValue();
    EncodingExact(Affine(q, PRIME - 2), 32);
    hide PublicKeyOf, Pow2;
    AffineMeans(q);
  }

  /** Clamping a private key first does not change its public key. */
  lemma {:induction false} ClampingFirst(key: Bytes)
    requires |key| == 32
    ensures PublicKeyOf(Clamped(key)) == PublicKeyOf(key)
  {
    ClampedTwice(key);
  }
}

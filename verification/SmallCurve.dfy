/** A curve of order 5 that obeys the laws assumed of the libraries, and a signature on it for which
  * recovery returns a key that does not verify.
  */
module SmallCurve {
  import opened Ideal
  import opened LittleEndian
  import opened Modular
  import opened KeyRecovery
  import opened KeyTheorems

  /** The multiples of the generator (0, 1) of y^2 = x^3 - 3x + 1 modulo 7. */
  function MultipleOf(k: nat): (r: Point) {
    if k % 5 == 0 then Infinity
    else if k % 5 == 1 then Affine(0, 1)
    else if k % 5 == 2 then Affine(4, 5)
    else if k % 5 == 3 then Affine(4, 2)
    else Affine(0, 6)
  }

  function Log(q: Point): (r: nat) {
    if q == Affine(0, 1) then 1
    else if q == Affine(4, 5) then 2
    else if q == Affine(4, 2) then 3
    else if q == Affine(0, 6) then 4
    else 0
  }

  predicate Member(q: Point) {
    q == Infinity || Log(q) != 0
  }

  function Inverse(a: int): (r: Option<nat>) {
    if a % 5 == 0 then None else if a % 5 == 2 then Some(3) else if a % 5 == 3 then Some(2) else Some(a % 5)
  }

  function Root(a: int): (r: Option<nat>) {
    if a % 7 == 0 then Some(0)
    else if a % 7 == 1 then Some(1)
    else if a % 7 == 2 then Some(3)
    else if a % 7 == 4 then Some(2)
    else None
  }

  function Add(p: Point, q: Point): (r: Point) {
    MultipleOf(Log(p) + Log(q))
  }

  function Mul(k: nat, q: Point): (r: Point) {
    MultipleOf(k * Log(q))
  }

  const SMALL: Curve := Curve(7, 5, 1, Affine(0, 1), Member, Add, Mul, Inverse, Root)

  /** The curve, by what it does. */
  ghost predicate IsSmall(c: Curve) {
    && c.p == 7 && c.n == 5 && c.b == 1 && c.generator == Affine(0, 1)
    && (forall q :: c.onCurve(q) == Member(q))
    && (forall p, q :: c.add(p, q) == Add(p, q))
    && (forall k: nat, q :: c.mul(k, q) == Mul(k, q))
    && (forall a :: c.inverse(a) == Inverse(a))
    && (forall a :: c.root(a) == Root(a))
  }

  lemma SmallIsSmall()
    ensures IsSmall(SMALL)
  {
  }

  lemma SmallIsProper(c: Curve)
    requires IsSmall(c)
    ensures c.Proper()
  {
    BigPower(48);
  }

  lemma BigPower(n: nat)
    requires n > 0
    ensures Power256(n) >= 256
  {
  }

  lemma LogOfMultiple(k: nat)
    ensures Member(MultipleOf(k)) && Log(MultipleOf(k)) == k % 5 && Congruent(Log(MultipleOf(k)), k, 5)
  {
    ModIsCongruent(k, 5);
  }

  lemma LogInjective(p: Point, q: Point)
    requires Member(p) && Member(q) && Log(p) == Log(q)
    ensures p == q
  {
  }

  lemma SumLaw(c: Curve, p: Point, q: Point)
    requires IsSmall(c)
    ensures Member(c.add(p, q)) && Congruent(Log(c.add(p, q)), Log(p) + Log(q), 5)
  {
    LogOfMultiple(Log(p) + Log(q));
  }

  lemma ProductLaw(c: Curve, k: nat, q: Point)
    requires IsSmall(c)
    ensures Member(c.mul(k, q)) && Congruent(Log(c.mul(k, q)), k * Log(q), 5)
  {
    LogOfMultiple(k * Log(q));
  }

  /** The laws of the group, one by one. */
  lemma SmallGroup(c: Curve)
    requires c.n == 5 && c.generator == Affine(0, 1) && forall q :: c.onCurve(q) == Member(q)
    requires forall p, q {:trigger c.add(p, q)} ::
               Member(c.add(p, q)) && Congruent(Log(c.add(p, q)), Log(p) + Log(q), 5)
    requires forall k: nat, q {:trigger c.mul(k, q)} ::
               Member(c.mul(k, q)) && Congruent(Log(c.mul(k, q)), k * Log(q), 5)
    ensures GroupLaws(c, Log)
  {
    forall p, q | Member(p) && Member(q) && Log(p) == Log(q)
      ensures p == q
    {
      LogInjective(p, q);
    }
  }

  lemma Fifths(a: int)
    ensures Congruent(a, 0, 5) <==> a % 5 == 0
    ensures Inverse(a).Some? ==> Congruent(a * Inverse(a).value, 1, 5)
  {
    SameRemainder(a, 0, 5);
    if Inverse(a).Some? {
      var q, w := a / 5, Inverse(a).value;
      ModIsCongruent(a, 5);
      Symmetric(a % 5, a, 5);
      Reflexive(w, 5);
      Product(a, a % 5, w, w, 5);
      CongruentBy((a % 5) * w, 1, 5, ((a % 5) * w) / 5);
      Transitive(a * w, (a % 5) * w, 1, 5);
    }
  }

  lemma SmallInverses(c: Curve)
    requires IsSmall(c)
    ensures InverseLaws(c)
  {
    forall a: int
      ensures Congruent(a, 0, 5) <==> a % 5 == 0
      ensures Inverse(a).Some? ==> Congruent(a * Inverse(a).value, 1, 5)
    {
      Fifths(a);
    }
  }

  /** Squares modulo 7 depend on the remainder only. */
  lemma SquareModSeven(y: int)
    ensures (y * y) % 7 == ((y % 7) * (y % 7)) % 7
  {
    ModIsCongruent(y, 7);
    Product(y % 7, y, y % 7, y, 7);
    SameRemainder((y % 7) * (y % 7), y * y, 7);
  }

  lemma SquareTable(m: int)
    requires 0 <= m < 7
    ensures (m * m) % 7 == if m == 0 then 0 else if m == 1 || m == 6 then 1 else if m == 2 || m == 5 then 4 else 2
  {
    if m == 0 {} else if m == 1 {} else if m == 2 {} else if m == 3 {} else if m == 4 {} else if m == 5 {} else {}
  }

  lemma RootModSeven(y: int, a: int)
    ensures RootOf(y, a, 7) <==> a % 7 == ((y % 7) * (y % 7)) % 7
  {
    SquareModSeven(y);
    SameRemainder(y * y, a, 7);
  }

  lemma TwoRoots(a: int, y: int, y': int)
    requires RootOf(y, a, 7) && RootOf(y', a, 7)
    ensures Congruent(y, y', 7) || Congruent(y, -y', 7)
  {
    RootModSeven(y, a);
    RootModSeven(y', a);
    SquareTable(y % 7);
    SquareTable(y' % 7);
    SameRemainder(y, y', 7);
    if y % 7 != y' % 7 {
      assert (y % 7) + (y' % 7) == 7;
      CongruentBy(y, -y', 7, y / 7 + y' / 7 + 1);
    }
  }

  lemma SmallRoots(c: Curve)
    requires IsSmall(c)
    ensures RootLaws(c)
  {
    forall a: int
      ensures Root(a).Some? ==> RootOf(Root(a).value, a, 7)
    {
      if Root(a).Some? {
        RootModSeven(Root(a).value, a);
      }
    }
    forall a: int, y: int | RootOf(y, a, 7)
      ensures Root(a).Some?
    {
      RootModSeven(y, a);
      SquareTable(y % 7);
    }
    forall a: int, y: int, y': int | RootOf(y, a, 7) && RootOf(y', a, 7)
      ensures Congruent(y, y', 7) || Congruent(y, -y', 7)
    {
      TwoRoots(a, y, y');
    }
  }

  lemma PolynomialTable(x: int)
    requires 0 <= x < 7
    ensures (x * x * x - (2 * x + x) + 1) % 7
         == if x == 0 || x == 4 then (if x == 0 then 1 else 4) else if x == 1 || x == 6 then (if x == 1 then 6 else 3)
            else if x == 2 then 3 else if x == 3 then 5 else 6
  {
    if x == 0 {} else if x == 1 {} else if x == 2 {} else if x == 3 {} else if x == 4 {} else if x == 5 {} else {}
  }

  lemma SmallPoint(x: nat, y: nat)
    requires x < 7 && y < 7
    ensures Member(Affine(x, y)) <==> Congruent(y * y, (x * x * x - (2 * x + x) + 1) % 7, 7)
  {
    var a := (x * x * x - (2 * x + x) + 1) % 7;
    SameRemainder(y * y, a, 7);
    PolynomialTable(x);
    SquareTable(y);
  }

  lemma SmallPoints(c: Curve)
    requires IsSmall(c)
    ensures c.Proper() && PointLaws(c)
  {
    SmallIsProper(c);
    forall x: nat, y: nat
      ensures Member(Affine(x, y)) <==> x < 7 && y < 7 && Congruent(y * y, c.Polynomial(x), 7)
    {
      if x < 7 && y < 7 {
        SmallPoint(x, y);
      }
    }
  }

  lemma SmallLaws(c: Curve)
    requires IsSmall(c)
    ensures Laws(c, Log)
  {
    SmallPoints(c);
    SmallInverses(c);
    SmallRoots(c);
    forall p, q
      ensures Member(c.add(p, q)) && Congruent(Log(c.add(p, q)), Log(p) + Log(q), 5)
    {
      SumLaw(c, p, q);
    }
    forall k: nat, q
      ensures Member(c.mul(k, q)) && Congruent(Log(c.mul(k, q)), k * Log(q), 5)
    {
      ProductLaw(c, k, q);
    }
    SmallGroup(c);
  }

  /** The laws are consistent. */
  lemma LawsAreConsistent()
    ensures Laws(SMALL, Log)
  {
    SmallIsSmall();
    SmallLaws(SMALL);
  }

  lemma SmallCandidates(c: Curve)
    requires IsSmall(c)
    ensures OnlyOnCurve(c, BothSigns(c, 4, 2)) == [Affine(4, 2), Affine(4, 5)]
  {
    var points := BothSigns(c, 4, 2);
    assert points == [Affine(4, 2), Affine(4, 5)];
    assert points[..1] == [Affine(4, 2)] && points[..1][..0] == [];
    assert OnlyOnCurve(c, points[..1]) == [] + [points[0]] == [points[0]];
  }

  lemma SmallKeys(key: Point -> Point)
    requires key(Affine(4, 2)) == Affine(0, 1) && key(Affine(4, 5)) == Affine(0, 1)
    ensures KeysFor(key, [Affine(4, 2), Affine(4, 5)]) == Some([Affine(0, 1), Affine(0, 1)])
  {
    AppendedCandidate(key, [], Affine(4, 2));
    assert [] + [Affine(4, 2)] == [Affine(4, 2)] && [] + [Affine(0, 1)] == [Affine(0, 1)];
    AppendedCandidate(key, [Affine(4, 2)], Affine(4, 5));
    assert [Affine(4, 2)] + [Affine(4, 5)] == [Affine(4, 2), Affine(4, 5)];
    assert [Affine(0, 1)] + [Affine(0, 1)] == [Affine(0, 1), Affine(0, 1)];
  }

  lemma SmallKey(c: Curve, q: Point)
    requires IsSmall(c) && c.Proper()
    ensures KeyFor(c, q, 4, 0, 1) == Affine(0, 1)
  {
    assert c.inverse(4) == Some(4);
    assert (1 * 4) % 5 == 4 && (-4) % 5 == 1 && (0 * 4) % 5 == 0;
    assert c.mul(1, c.generator) == Affine(0, 1);
    assert c.mul(0, q) == Infinity;
    assert c.add(Affine(0, 1), Infinity) == Affine(0, 1);
  }

  lemma RecoveryWith(c: Curve, key: Point -> Point, y: nat, keys: seq<Point>)
    requires c.Proper() && RootLaws(c) && c.inverse(4).Some? && 4 < c.p && key == KeyOf(c, 4, 0, 1)
    requires c.root(c.Polynomial(4)) == Some(y) && KeysFor(key, OnlyOnCurve(c, BothSigns(c, 4, y))) == Some(keys)
    ensures Recovery(c, 4, 0, 1) == Keys(SortKeys(keys))
  {
    DivisionIsUnique(4, c.p, 0, 4);
  }

  lemma RecoveredForZero(c: Curve)
    requires IsSmall(c) && c.Proper() && RootLaws(c)
    ensures Recovery(c, 4, 0, 1) == Keys([Affine(0, 1), Affine(0, 1)])
  {
    assert c.inverse(4) == Some(4);
    SmallKey(c, Affine(4, 2));
    SmallKey(c, Affine(4, 5));
    var key := KeyOf(c, 4, 0, 1);
    SmallKeys(key);
    SmallCandidates(c);
    PolynomialTable(4);
    assert c.Polynomial(4) == 4 && Root(4) == Some(2);
    RecoveryWith(c, key, 2, [Affine(0, 1), Affine(0, 1)]);
    SortEqual(Affine(0, 1));
  }

  /** Recovery does not check s: for s = 0 it returns keys, and none of them verifies. */
  lemma RecoveryAcceptsZero()
    ensures Laws(SMALL, Log)
    ensures Recovery(SMALL, 4, 0, 1) == Keys([Affine(0, 1), Affine(0, 1)])
    ensures !Verifies(SMALL, Affine(0, 1), 4, 0, 1)
  {
    LawsAreConsistent();
    SmallIsSmall();
    RecoveredForZero(SMALL);
  }

  lemma SortEqual(q: Point)
    ensures SortKeys([q, q]) == [q, q]
  {
    assert [q, q][1..] == [q] && [q][1..] == [];
    assert SortKeys([q]) == Insert(q, []);
    assert Insert(q, [q]) == [q, q] || Insert(q, [q]) == [q] + Insert(q, []);
  }

  /** Not any s is valid: for r = 4, s = 1 and z = 3 one of the two points belongs to no key, and recovery fails. */
  lemma RecoveryCanFail()
    ensures Laws(SMALL, Log) && InRange(SMALL, 4, 1)
    ensures Recovery(SMALL, 4, 1, 3) == Failed(BadKey)
  {
    LawsAreConsistent();
    var q := Affine(4, 2);
    RecoveryFailsExactly(SMALL, Log, 4, 1, 3);
    DivisionIsUnique(4, 7, 0, 4);
    Reflexive(3, 5);
    assert Member(q) && Log(q) == 3;
    assert Keyless(SMALL, Log, 4, 1, 3, q);
    if Congruent(4, 0, 5) {
      SmallEqual(4, 0, 5);
    }
  }
}

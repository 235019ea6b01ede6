/** What key recovery returns: exactly the keys for which the signature verifies, in an order that
  * does not depend on the library's choice of a square root.
  */
module KeyTheorems {
  import opened Ideal
  import opened LittleEndian
  import opened Sequences
  import opened Modular
  import opened KeyRecovery

  // ---- Exponents ----

  /** With rInv and sInv the inverses of r and s, verifying with the recovered exponent gives back
      the exponent of the candidate. */
  lemma ExponentsCancel(n: int, r: int, rInv: int, s: int, sInv: int, z: int, l: int)
    requires n > 0 && Congruent(r * rInv, 1, n) && Congruent(s * sInv, 1, n)
    ensures Congruent(z * sInv + (r * sInv) * (-(z * rInv) + (s * rInv) * l), l, n)
  {
    var j := Quotient(r * rInv, 1, n);
    var k := Quotient(s * sInv, 1, n);
    calc {
      z * sInv + (r * sInv) * (-(z * rInv) + (s * rInv) * l);
      { ProductOfSum(r * sInv, -(z * rInv), (s * rInv) * l); }
      z * sInv + (r * sInv) * (-(z * rInv)) + (r * sInv) * ((s * rInv) * l);
      { Reorder(r, rInv, s, sInv, z, l); }
      z * sInv - (z * sInv) * (r * rInv) + (r * rInv) * ((s * sInv) * l);
      z * sInv - (z * sInv) * (1 + n * j) + (1 + n * j) * ((1 + n * k) * l);
      { Collect(n, j, k, z * sInv, l); }
      l + n * (-(z * sInv) * j + k * l + j * ((1 + n * k) * l));
    }
    CongruentBy(z * sInv + (r * sInv) * (-(z * rInv) + (s * rInv) * l), l, n,
                -(z * sInv) * j + k * l + j * ((1 + n * k) * l));
  }

  lemma ProductOfSum(a: int, b: int, c: int)
    ensures a * (b + c) == a * b + a * c
  {
  }

  lemma Reorder(r: int, rInv: int, s: int, sInv: int, z: int, l: int)
    ensures (r * sInv) * (-(z * rInv)) == -((z * sInv) * (r * rInv))
    ensures (r * sInv) * ((s * rInv) * l) == (r * rInv) * ((s * sInv) * l)
  {
  }

  lemma Collect(n: int, j: int, k: int, a: int, l: int)
    ensures a - a * (1 + n * j) + (1 + n * j) * ((1 + n * k) * l)
         == l + n * (-a * j + k * l + j * ((1 + n * k) * l))
  {
    var m := (1 + n * k) * l;
    assert m == l + n * (k * l);
    assert a * (1 + n * j) == a + n * (a * j);
    assert (1 + n * j) * m == m + n * (j * m);
  }

  /** The other direction: the exponent of a key follows from that of the checked point. */
  lemma ExponentsRecover(n: int, r: int, rInv: int, s: int, sInv: int, z: int, q: int)
    requires n > 0 && Congruent(r * rInv, 1, n) && Congruent(s * sInv, 1, n)
    ensures Congruent(-(z * rInv) + (s * rInv) * (z * sInv + (r * sInv) * q), q, n)
  {
    ExponentsCancel(n, s, sInv, r, rInv, -z, q);
    assert (-z) * rInv + (s * rInv) * (-((-z) * sInv) + (r * sInv) * q)
             == -(z * rInv) + (s * rInv) * (z * sInv + (r * sInv) * q);
  }

  /** The exponent of u1 * G + u2 * P. */
  lemma LogOfSum(c: Curve, log: Point -> nat, u1: nat, u2: nat, q: Point, a: int, b: int)
    requires GroupLaws(c, log) && c.onCurve(q)
    requires Congruent(u1, a, c.n) && Congruent(u2, b, c.n)
    ensures var sum := c.add(c.mul(u1, c.generator), c.mul(u2, q));
            c.onCurve(sum) && Congruent(log(sum), a + b * log(q), c.n)
  {
    var p1, p2 := c.mul(u1, c.generator), c.mul(u2, q);
    var sum := c.add(p1, p2);
    assert c.onCurve(p1) && c.onCurve(p2) && c.onCurve(sum);
    var l, l1, l2, l0 := log(q), log(p1), log(p2), log(sum);
    assert Congruent(l1, u1 * 1, c.n) && Congruent(l2, u2 * l, c.n) && Congruent(l0, l1 + l2, c.n);
    SumOfExponents(c.n, l, l1, l2, l0, u1, u2, a, b);
  }

  lemma SumOfExponents(n: int, l: int, l1: int, l2: int, l0: int, u1: int, u2: int, a: int, b: int)
    requires Congruent(u1, a, n) && Congruent(u2, b, n)
    requires Congruent(l1, u1, n) && Congruent(l2, u2 * l, n) && Congruent(l0, l1 + l2, n)
    ensures Congruent(l0, a + b * l, n)
  {
    Transitive(l1, u1, a, n);
    Reflexive(l, n);
    Product(u2, b, l, l, n);
    Transitive(l2, u2 * l, b * l, n);
    Sum(l1, a, l2, b * l, n);
    Transitive(l0, l1 + l2, a + b * l, n);
  }

  lemma FirstExponent(n: int, a: int)
    requires n > 0
    ensures Congruent((-(a % n)) % n, -a, n)
  {
    ModIsCongruent(a, n);
    Negation(a % n, a, n);
    ModIsCongruent(-(a % n), n);
    Transitive((-(a % n)) % n, -(a % n), -a, n);
  }

  /** The exponent of a recovered key, given that of its candidate. */
  ghost function KeyLog(rInv: int, s: int, z: int, l: int): (r: int) {
    -(z * rInv) + (s * rInv) * l
  }

  /** The exponent of the point that verification arrives at, given that of the key. */
  ghost function CheckedLog(r: int, sInv: int, z: int, l: int): (result: int) {
    z * sInv + (r * sInv) * l
  }

  lemma LogOfKey(c: Curve, log: Point -> nat, candidate: Point, r: int, s: int, z: int)
    requires c.Proper() && GroupLaws(c, log) && c.onCurve(candidate) && c.inverse(r).Some?
    ensures c.onCurve(KeyFor(c, candidate, r, s, z))
    ensures Congruent(log(KeyFor(c, candidate, r, s, z)), KeyLog(c.inverse(r).value, s, z, log(candidate)), c.n)
  {
    var rInv := c.inverse(r).value;
    FirstExponent(c.n, z * rInv);
    ModIsCongruent(s * rInv, c.n);
    LogOfSum(c, log, (-((z * rInv) % c.n)) % c.n, (s * rInv) % c.n, candidate, -(z * rInv), s * rInv);
  }

  lemma LogOfChecked(c: Curve, log: Point -> nat, q: Point, r: int, s: int, z: int)
    requires c.Proper() && GroupLaws(c, log) && c.onCurve(q) && c.inverse(s).Some?
    ensures c.onCurve(CheckedPoint(c, q, r, s, z))
    ensures Congruent(log(CheckedPoint(c, q, r, s, z)), CheckedLog(r, c.inverse(s).value, z, log(q)), c.n)
  {
    var w := c.inverse(s).value;
    ModIsCongruent(z * w, c.n);
    ModIsCongruent(r * w, c.n);
    LogOfSum(c, log, (z * w) % c.n, (r * w) % c.n, q, z * w, r * w);
  }

  /** Replaces the exponent in a sum. */
  lemma ReplaceLog(a: int, b: int, l: int, l': int, n: int)
    requires Congruent(l, l', n)
    ensures Congruent(a + b * l, a + b * l', n)
  {
    Reflexive(b, n);
    Product(b, b, l, l', n);
    Reflexive(a, n);
    Sum(a, a, b * l, b * l', n);
  }

  lemma CheckedAfterKey(n: int, r: int, rInv: int, s: int, sInv: int, z: int, l: int, key: int, checked: int)
    requires n > 0 && Congruent(r * rInv, 1, n) && Congruent(s * sInv, 1, n)
    requires Congruent(key, KeyLog(rInv, s, z, l), n) && Congruent(checked, CheckedLog(r, sInv, z, key), n)
    ensures Congruent(checked, l, n)
  {
    ReplaceLog(z * sInv, r * sInv, key, KeyLog(rInv, s, z, l), n);
    Transitive(checked, CheckedLog(r, sInv, z, key), CheckedLog(r, sInv, z, KeyLog(rInv, s, z, l)), n);
    ExponentsCancel(n, r, rInv, s, sInv, z, l);
    Transitive(checked, CheckedLog(r, sInv, z, KeyLog(rInv, s, z, l)), l, n);
  }

  lemma KeyAfterChecked(n: int, r: int, rInv: int, s: int, sInv: int, z: int, l: int, key: int, checked: int)
    requires n > 0 && Congruent(r * rInv, 1, n) && Congruent(s * sInv, 1, n)
    requires Congruent(checked, CheckedLog(r, sInv, z, l), n) && Congruent(key, KeyLog(rInv, s, z, checked), n)
    ensures Congruent(key, l, n)
  {
    ReplaceLog(-(z * rInv), s * rInv, checked, CheckedLog(r, sInv, z, l), n);
    Transitive(key, KeyLog(rInv, s, z, checked), KeyLog(rInv, s, z, CheckedLog(r, sInv, z, l)), n);
    ExponentsRecover(n, r, rInv, s, sInv, z, l);
    Transitive(key, KeyLog(rInv, s, z, CheckedLog(r, sInv, z, l)), l, n);
  }

  lemma InverseOf(c: Curve, a: int)
    requires c.Proper() && InverseLaws(c) && c.inverse(a).Some?
    ensures Congruent(a * c.inverse(a).value, 1, c.n)
  {
  }

  lemma SameLog(c: Curve, log: Point -> nat, p: Point, q: Point)
    requires GroupLaws(c, log) && c.onCurve(p) && c.onCurve(q) && Congruent(log(p), log(q), c.n)
    ensures p == q
  {
    SmallEqual(log(p), log(q), c.n);
  }

  /** Verification with the key recovered for a candidate arrives at the candidate again. */
  lemma CheckedPointOfKey(c: Curve, log: Point -> nat, candidate: Point, r: int, s: int, z: int)
    requires c.Proper() && InverseLaws(c) && GroupLaws(c, log)
    requires c.onCurve(candidate) && c.inverse(r).Some? && c.inverse(s).Some?
    ensures CheckedPoint(c, KeyFor(c, candidate, r, s, z), r, s, z) == candidate
  {
    var key := KeyFor(c, candidate, r, s, z);
    LogOfKey(c, log, candidate, r, s, z);
    LogOfChecked(c, log, key, r, s, z);
    InverseOf(c, r);
    InverseOf(c, s);
    var checked := CheckedPoint(c, key, r, s, z);
    CheckedAfterKey(c.n, r, c.inverse(r).value, s, c.inverse(s).value, z, log(candidate), log(key), log(checked));
    SameLog(c, log, checked, candidate);
  }

  /** The key recovered for the point that verification arrives at is the key it started from. */
  lemma KeyOfCheckedPoint(c: Curve, log: Point -> nat, q: Point, r: int, s: int, z: int)
    requires c.Proper() && InverseLaws(c) && GroupLaws(c, log)
    requires c.onCurve(q) && c.inverse(r).Some? && c.inverse(s).Some?
    ensures c.onCurve(CheckedPoint(c, q, r, s, z))
    ensures KeyFor(c, CheckedPoint(c, q, r, s, z), r, s, z) == q
  {
    var checked := CheckedPoint(c, q, r, s, z);
    LogOfChecked(c, log, q, r, s, z);
    LogOfKey(c, log, checked, r, s, z);
    InverseOf(c, r);
    InverseOf(c, s);
    var key := KeyFor(c, checked, r, s, z);
    KeyAfterChecked(c.n, r, c.inverse(r).value, s, c.inverse(s).value, z, log(q), log(key), log(checked));
    SameLog(c, log, key, q);
  }

  lemma InvertibleInRange(c: Curve, a: int)
    requires c.Proper() && InverseLaws(c) && 1 <= a < c.n
    ensures c.inverse(a).Some?
  {
    if Congruent(a, 0, c.n) {
      SmallEqual(a, 0, c.n);
    }
  }

  lemma RemainderInRange(a: int, n: int, p: int)
    requires 0 <= a < n <= p
    ensures a % p == a && (a % p) % n == a
  {
    DivisionIsUnique(a, p, 0, a);
    DivisionIsUnique(a, n, 0, a);
  }

  /** A recovered key verifies exactly if r and s are in the range that verification demands. The
      source leaves this to its caller. */
  lemma KeyVerifies(c: Curve, log: Point -> nat, candidate: Point, r: int, s: int, z: int)
    requires c.Proper() && InverseLaws(c) && GroupLaws(c, log)
    requires c.onCurve(candidate) && candidate.Affine? && candidate.x == r % c.p
    requires c.inverse(r).Some? && KeyFor(c, candidate, r, s, z) != Infinity
    ensures Verifies(c, KeyFor(c, candidate, r, s, z), r, s, z) <==> InRange(c, r, s)
    ensures c.onCurve(KeyFor(c, candidate, r, s, z))
  {
    LogOfKey(c, log, candidate, r, s, z);
    if InRange(c, r, s) {
      InvertibleInRange(c, s);
      CheckedPointOfKey(c, log, candidate, r, s, z);
      RemainderInRange(r, c.n, c.p);
    }
  }

  // ---- Candidates ----

  lemma OtherSign(c: Curve, x: nat, y: nat)
    requires c.Proper() && PointLaws(c) && c.onCurve(Affine(x, y)) && y != 0
    ensures y < c.p && c.onCurve(Affine(x, c.p - y))
  {
    var y' := c.p - y;
    OppositeSquare(c.p, y);
    Transitive(y' * y', y * y, c.Polynomial(x), c.p);
  }

  lemma OppositeSquare(p: int, y: int)
    ensures Congruent((p - y) * (p - y), y * y, p)
  {
    calc {
      (p - y) * (p - y);
      p * (p - y) - y * (p - y);
      p * (p - y) - y * p + y * y;
      y * y + p * (p - 2 * y);
    }
    CongruentBy((p - y) * (p - y), y * y, p, p - 2 * y);
  }

  lemma NotOnCurve(c: Curve, x: nat)
    requires c.Proper() && PointLaws(c)
    ensures !c.onCurve(Affine(x, c.p))
  {
  }

  lemma RootIsOnCurve(c: Curve, x: nat, y: nat)
    requires c.Proper() && PointLaws(c) && RootLaws(c) && x < c.p && c.root(c.Polynomial(x)) == Some(y)
    ensures y < c.p && c.onCurve(Affine(x, y))
  {
    assert RootOf(y, c.Polynomial(x), c.p);
  }

  ghost function Candidates(p: nat, x: nat, y: nat): (r: seq<Point>)
    requires y < p
  {
    if y == 0 then [Affine(x, 0)] else [Affine(x, y), Affine(x, p - y)]
  }

  /** Both signs of a root are on the curve, but for y = 0 there is only one. */
  lemma CandidatesAre(c: Curve, x: nat, y: nat)
    requires c.Proper() && PointLaws(c) && RootLaws(c) && x < c.p && c.root(c.Polynomial(x)) == Some(y)
    ensures y < c.p && OnlyOnCurve(c, BothSigns(c, x, y)) == Candidates(c.p, x, y)
    ensures forall i :: 0 <= i < |Candidates(c.p, x, y)| ==> c.onCurve(Candidates(c.p, x, y)[i])
  {
    RootIsOnCurve(c, x, y);
    if y == 0 {
      NotOnCurve(c, x);
    } else {
      OtherSign(c, x, y);
    }
    var points := BothSigns(c, x, y);
    assert points[..1] == [points[0]] && points[..1][..0] == [];
    assert OnlyOnCurve(c, points[..1]) == [] + [points[0]];
  }

  /** Two roots are equal or add up to p. */
  lemma SameSquare(c: Curve, y: nat, y': nat, a: int)
    requires c.Proper() && RootLaws(c) && y < c.p && y' < c.p && RootOf(y, a, c.p) && RootOf(y', a, c.p)
    ensures y' == y || (y' == c.p - y && y != 0)
  {
    if Congruent(y, y', c.p) {
      SmallEqual(y, y', c.p);
    } else {
      OppositeRoots(c.p, y, y');
    }
  }

  lemma OppositeRoots(p: int, y: int, y': int)
    requires 0 <= y < p && 0 <= y' < p && Congruent(y, -y', p)
    ensures y' == y == 0 || (y' == p - y && y != 0)
  {
    var k := Quotient(y, -y', p);
    if k >= 2 {
      AtLeastOnce(p, k - 1);
    } else if k <= -1 {
      AtLeastOnce(p, -k);
    }
  }

  /** Every point of the curve at this x-coordinate is a candidate. */
  lemma AllCandidates(c: Curve, x: nat, q: Point)
    requires c.Proper() && PointLaws(c) && RootLaws(c) && x < c.p && c.onCurve(q) && q.Affine? && q.x == x
    ensures c.root(c.Polynomial(x)).Some?
    ensures var y := c.root(c.Polynomial(x)).value; y < c.p && q in Candidates(c.p, x, y)
  {
    assert RootOf(q.y, c.Polynomial(x), c.p);
    var y := c.root(c.Polynomial(x)).value;
    SameSquare(c, y, q.y, c.Polynomial(x));
  }

  lemma {:induction false} KeysForAre(key: Point -> Point, candidates: seq<Point>)
    requires KeysFor(key, candidates).Some?
    ensures var keys := KeysFor(key, candidates).value;
            && |keys| == |candidates|
            && forall i :: 0 <= i < |keys| ==> keys[i] == key(candidates[i]) != Infinity
  {
    if candidates != [] {
      KeysForAre(key, candidates[..|candidates| - 1]);
    }
  }

  // ---- Order ----

  lemma {:induction false} NotAfterBoth(a: seq<byte>, b: seq<byte>)
    requires |a| == |b|
    ensures NotAfter(a, b) || NotAfter(b, a)
    ensures NotAfter(a, b) && NotAfter(b, a) ==> a == b
  {
    if a != [] {
      NotAfterBoth(a[1..], b[1..]);
      assert a == [a[0]] + a[1..] && b == [b[0]] + b[1..];
    }
  }

  predicate Small(q: Point) {
    q.Affine? && q.x < Power256(48) && q.y < Power256(48)
  }

  lemma EncodedNumber(n: nat, x: nat, y: nat)
    requires x < Power256(n) && y < Power256(n) && Backwards(LE(n, x)) == Backwards(LE(n, y))
    ensures x == y
  {
    BackwardsTwice(LE(n, x));
    BackwardsTwice(LE(n, y));
    EncodeLE(n, x);
    EncodeLE(n, y);
  }

  lemma EncodedInjective(a: Point, b: Point)
    requires Small(a) && Small(b) && Encoded(a) == Encoded(b)
    ensures a == b
  {
    var ax, ay, bx, by' :=
        Backwards(LE(48, a.x)), Backwards(LE(48, a.y)), Backwards(LE(48, b.x)), Backwards(LE(48, b.y));
    SameHalves([4] + ax, ay, [4] + bx, by');
    SameHalves([4], ax, [4], bx);
    EncodedNumber(48, a.x, b.x);
    EncodedNumber(48, a.y, b.y);
  }

  lemma {:induction false} InsertKeeps(q: Point, keys: seq<Point>)
    ensures multiset(Insert(q, keys)) == multiset(keys) + multiset{q}
  {
    if keys != [] {
      InsertKeeps(q, keys[1..]);
      assert keys == [keys[0]] + keys[1..];
    }
  }

  /** Sorting permutes. */
  lemma {:induction false} SortKeeps(keys: seq<Point>)
    ensures multiset(SortKeys(keys)) == multiset(keys)
  {
    if keys != [] {
      SortKeeps(keys[1..]);
      InsertKeeps(keys[0], SortKeys(keys[1..]));
      assert keys == [keys[0]] + keys[1..];
    }
  }

  lemma SortedMembers(keys: seq<Point>, q: Point)
    ensures q in SortKeys(keys) <==> q in keys
  {
    SortKeeps(keys);
    assert q in SortKeys(keys) <==> q in multiset(SortKeys(keys));
  }

  /** Two keys are sorted into the same order wherever they start. */
  lemma SortTwo(a: Point, b: Point)
    requires Small(a) && Small(b)
    ensures SortKeys([a, b]) == SortKeys([b, a])
  {
    NotAfterBoth(Encoded(a), Encoded(b));
    if Encoded(a) == Encoded(b) {
      EncodedInjective(a, b);
    }
    SortPair(a, b);
    SortPair(b, a);
  }

  lemma SortPair(a: Point, b: Point)
    ensures SortKeys([a, b]) == if KeyNotAfter(a, b) then [a, b] else [b, a]
  {
    assert [a, b][1..] == [b] && [b][1..] == [];
    assert SortKeys([b]) == Insert(b, []);
    assert Insert(a, []) == [a];
  }

  // ---- Main results ----

  /** Whatever is returned is a key under which the signature verifies, if r and s are in range;
      if they are not, no returned key verifies. And there is always a key to choose. */
  lemma RecoveredKeysVerify(c: Curve, log: Point -> nat, r: int, s: int, z: int, key: Point)
    requires Laws(c, log) && Recovery(c, r, s, z).Keys?
    ensures Recovery(c, r, s, z).keys != []
    ensures key in Recovery(c, r, s, z).keys ==>
              key.Affine? && c.onCurve(key) && (Verifies(c, key, r, s, z) <==> InRange(c, r, s))
  {
    var x := r % c.p;
    var y := c.root(c.Polynomial(x)).value;
    var candidates := Candidates(c.p, x, y);
    var keyOf := KeyOf(c, r, s, z);
    CandidatesAre(c, x, y);
    KeysForAre(keyOf, candidates);
    var keys := KeysFor(keyOf, candidates).value;
    SortedMembers(keys, keys[0]);
    SortedMembers(keys, key);
    if key in keys {
      var i :| 0 <= i < |keys| && keys[i] == key;
      KeyOfCandidate(c, log, r, s, z, y, i, key);
    }
  }

  lemma KeyOfCandidate(c: Curve, log: Point -> nat, r: int, s: int, z: int, y: nat, i: nat, key: Point)
    requires Laws(c, log) && c.inverse(r).Some? && y < c.p && i < |Candidates(c.p, r % c.p, y)|
    requires c.onCurve(Candidates(c.p, r % c.p, y)[i])
    requires key == KeyFor(c, Candidates(c.p, r % c.p, y)[i], r, s, z) != Infinity
    ensures key.Affine? && c.onCurve(key) && (Verifies(c, key, r, s, z) <==> InRange(c, r, s))
  {
    KeyVerifies(c, log, Candidates(c.p, r % c.p, y)[i], r, s, z);
  }

  /** A candidate has no key exactly if its exponent is the one that the signature equation gives for the
      identity. */
  lemma NoKeyExactly(c: Curve, log: Point -> nat, candidate: Point, r: int, s: int, z: int)
    requires Laws(c, log) && c.onCurve(candidate) && c.inverse(r).Some?
    ensures KeyFor(c, candidate, r, s, z) == Infinity <==> Congruent(z, s * log(candidate), c.n)
  {
    var rInv, l, key := c.inverse(r).value, log(candidate), KeyFor(c, candidate, r, s, z);
    LogOfKey(c, log, candidate, r, s, z);
    InverseOf(c, r);
    if Congruent(z, s * l, c.n) {
      ZeroExponent(c.n, r, rInv, s, z, l);
      Transitive(log(key), KeyLog(rInv, s, z, l), 0, c.n);
      SameLog(c, log, key, Infinity);
    } else if key == Infinity {
      Symmetric(0, KeyLog(rInv, s, z, l), c.n);
      ExponentOfZero(c.n, r, rInv, s, z, l);
    }
  }

  lemma ZeroExponent(n: int, r: int, rInv: int, s: int, z: int, l: int)
    requires Congruent(z, s * l, n)
    ensures Congruent(KeyLog(rInv, s, z, l), 0, n)
  {
    var k := Quotient(z, s * l, n);
    calc {
      KeyLog(rInv, s, z, l);
      -((s * l + n * k) * rInv) + (s * rInv) * l;
      { CancelProducts(s, l, n, k, rInv); }
      0 + n * (-(k * rInv));
    }
    CongruentBy(KeyLog(rInv, s, z, l), 0, n, -(k * rInv));
  }

  lemma CancelProducts(s: int, l: int, n: int, k: int, rInv: int)
    ensures -((s * l + n * k) * rInv) + (s * rInv) * l == n * (-(k * rInv))
  {
    assert (s * l + n * k) * rInv == (s * l) * rInv + (n * k) * rInv;
    assert (s * l) * rInv == (s * rInv) * l;
    assert n * (-(k * rInv)) == -((n * k) * rInv);
  }

  lemma ExponentOfZero(n: int, r: int, rInv: int, s: int, z: int, l: int)
    requires Congruent(r * rInv, 1, n) && Congruent(KeyLog(rInv, s, z, l), 0, n)
    ensures Congruent(z, s * l, n)
  {
    var j := Quotient(r * rInv, 1, n);
    var k := Quotient(KeyLog(rInv, s, z, l), 0, n);
    TimesKeyLog(r, rInv, s, z, l);
    var d := s * l - z;
    assert r * (n * k) == (1 + n * j) * d;
    Isolate(n, r, j, k, d);
    CongruentBy(z, s * l, n, j * d - r * k);
  }

  lemma TimesKeyLog(r: int, rInv: int, s: int, z: int, l: int)
    ensures r * KeyLog(rInv, s, z, l) == (r * rInv) * (s * l - z)
  {
    assert r * (-(z * rInv)) == -((r * rInv) * z);
    assert r * ((s * rInv) * l) == (r * rInv) * (s * l);
  }

  lemma Isolate(n: int, r: int, j: int, k: int, d: int)
    requires r * (n * k) == (1 + n * j) * d
    ensures d == -(n * (j * d - r * k))
  {
    assert (1 + n * j) * d == d + n * (j * d);
    assert r * (n * k) == n * (r * k);
    assert n * (j * d - r * k) == n * (j * d) - n * (r * k);
  }

  lemma {:induction false} KeysForFails(key: Point -> Point, candidates: seq<Point>)
    ensures KeysFor(key, candidates).None? <==> exists i :: 0 <= i < |candidates| && key(candidates[i]) == Infinity
  {
    if candidates != [] {
      var n := |candidates| - 1;
      KeysForFails(key, candidates[..n]);
      if i :| 0 <= i < |candidates| && key(candidates[i]) == Infinity {
        assert i < n ==> candidates[..n][i] == candidates[i];
      }
      if i :| 0 <= i < n && key(candidates[..n][i]) == Infinity {
        assert candidates[..n][i] == candidates[i];
      }
    }
  }

  /** A point of the curve from which the signer cannot have got to (r, s, z), with any key. */
  ghost predicate Keyless(c: Curve, log: Point -> nat, r: int, s: int, z: int, q: Point)
    requires c.Proper()
  {
    q.Affine? && c.onCurve(q) && q.x == r % c.p && Congruent(z, s * log(q), c.n)
  }

  lemma CandidatesAreAll(c: Curve, x: nat, y: nat, q: Point)
    requires c.Proper() && PointLaws(c) && RootLaws(c) && x < c.p && c.root(c.Polynomial(x)) == Some(y)
    ensures y < c.p && (q in Candidates(c.p, x, y) <==> q.Affine? && c.onCurve(q) && q.x == x)
  {
    CandidatesAre(c, x, y);
    if q.Affine? && c.onCurve(q) && q.x == x {
      AllCandidates(c, x, q);
    }
    if q in Candidates(c.p, x, y) {
      var i :| 0 <= i < |Candidates(c.p, x, y)| && Candidates(c.p, x, y)[i] == q;
    }
  }

  lemma KeylessCandidate(c: Curve, log: Point -> nat, r: int, s: int, z: int, y: nat)
    requires Laws(c, log) && c.inverse(r).Some? && c.root(c.Polynomial(r % c.p)) == Some(y)
    ensures y < c.p
    ensures KeysFor(KeyOf(c, r, s, z), Candidates(c.p, r % c.p, y)).None? <==> exists q :: Keyless(c, log, r, s, z, q)
  {
    var x, key := r % c.p, KeyOf(c, r, s, z);
    CandidatesAre(c, x, y);
    var candidates := Candidates(c.p, x, y);
    KeysForFails(key, candidates);
    if i :| 0 <= i < |candidates| && key(candidates[i]) == Infinity {
      CandidatesAreAll(c, x, y, candidates[i]);
      NoKeyExactly(c, log, candidates[i], r, s, z);
      assert Keyless(c, log, r, s, z, candidates[i]);
    }
    if q :| Keyless(c, log, r, s, z, q) {
      CandidatesAreAll(c, x, y, q);
      NoKeyExactly(c, log, q, r, s, z);
      var i :| 0 <= i < |candidates| && candidates[i] == q;
      assert key(candidates[i]) == Infinity;
    }
  }

  lemma NoRootExactly(c: Curve, x: nat)
    requires c.Proper() && PointLaws(c) && RootLaws(c) && x < c.p
    ensures c.root(c.Polynomial(x)).Some? <==> exists q: Point :: q.Affine? && c.onCurve(q) && q.x == x
  {
    if q: Point :| q.Affine? && c.onCurve(q) && q.x == x {
      AllCandidates(c, x, q);
    }
    if c.root(c.Polynomial(x)).Some? {
      RootIsOnCurve(c, x, c.root(c.Polynomial(x)).value);
      assert Affine(x, c.root(c.Polynomial(x)).value).x == x;
    }
  }

  /** When recovery fails, and how: r has no inverse, or it is no x-coordinate of the curve, or one of the points
      there belongs to no key. */
  lemma RecoveryFailsExactly(c: Curve, log: Point -> nat, r: int, s: int, z: int)
    requires Laws(c, log)
    ensures var onX := exists q: Point :: q.Affine? && c.onCurve(q) && q.x == r % c.p;
            var o := Recovery(c, r, s, z);
            && (o == Failed(NoInverse) <==> Congruent(r, 0, c.n))
            && (o == Failed(NoRoot) <==> !Congruent(r, 0, c.n) && !onX)
            && (o == Failed(BadKey) <==> !Congruent(r, 0, c.n) && exists q :: Keyless(c, log, r, s, z, q))
  {
    var x := r % c.p;
    NoRootExactly(c, x);
    assert c.inverse(r).None? <==> Congruent(r, 0, c.n);
    var y := c.root(c.Polynomial(x));
    if y.Some? {
      CandidatesAre(c, x, y.value);
      if c.inverse(r).Some? {
        KeylessCandidate(c, log, r, s, z, y.value);
      }
    } else if q :| Keyless(c, log, r, s, z, q) {
      assert false;
    }
  }

  /** Nothing is missing: for a signature in range, recovery returns all keys for which verification
      arrives at a point with x-coordinate r, unless one of the points there belongs to no key: then it fails. */
  lemma RecoveryIsComplete(c: Curve, log: Point -> nat, r: int, s: int, z: int, key: Point)
    requires Laws(c, log) && Verifies(c, key, r, s, z) && CheckedPoint(c, key, r, s, z).x == r
    ensures if exists q :: Keyless(c, log, r, s, z, q) then Recovery(c, r, s, z) == Failed(BadKey)
            else Recovery(c, r, s, z).Keys? && key in Recovery(c, r, s, z).keys
  {
    RecoveryFailsExactly(c, log, r, s, z);
    InvertibleInRange(c, r);
    RemainderInRange(r, c.n, c.p);
    KeyOfCheckedPoint(c, log, key, r, s, z);
    var q := CheckedPoint(c, key, r, s, z);
    AllCandidates(c, r, q);
    var y := c.root(c.Polynomial(r)).value;
    CandidatesAre(c, r, y);
    FoundAmong(KeyOf(c, r, s, z), Candidates(c.p, r, y), q);
  }

  lemma FoundAmong(key: Point -> Point, candidates: seq<Point>, q: Point)
    requires q in candidates
    ensures KeysFor(key, candidates).Some? ==> key(q) in SortKeys(KeysFor(key, candidates).value)
  {
    if KeysFor(key, candidates).Some? {
      KeysForAre(key, candidates);
      var keys := KeysFor(key, candidates).value;
      var i :| 0 <= i < |candidates| && candidates[i] == q;
      assert keys[i] == key(q);
      SortedMembers(keys, key(q));
    }
  }

  lemma KeysForTwo(key: Point -> Point, a: Point, b: Point)
    ensures KeysFor(key, [a, b])
         == if key(a) == Infinity || key(b) == Infinity then None else Some([key(a), key(b)])
  {
    AppendedCandidate(key, [], a);
    assert [] + [a] == [a];
    if key(a) == Infinity {
      assert [a, b][..1] == [a];
    } else {
      AppendedCandidate(key, [a], b);
      assert [a] + [b] == [a, b];
      assert [] + [key(a)] == [key(a)] && [key(a)] + [key(b)] == [key(a), key(b)];
    }
  }

  lemma SwappedCandidates(key: Point -> Point, a: Point, b: Point)
    requires key(a) == Infinity || Small(key(a))
    requires key(b) == Infinity || Small(key(b))
    ensures Outcome(KeysFor(key, [a, b])) == Outcome(KeysFor(key, [b, a]))
  {
    KeysForTwo(key, a, b);
    KeysForTwo(key, b, a);
    if key(a) != Infinity && key(b) != Infinity {
      SortTwo(key(a), key(b));
    }
  }

  /** The same curve with another choice of square roots. */
  ghost predicate SameButRoots(c: Curve, c': Curve) {
    c' == c.(root := c'.root)
  }

  lemma SmallKey(c: Curve, log: Point -> nat, candidate: Point, r: int, s: int, z: int)
    requires Laws(c, log) && c.onCurve(candidate) && c.inverse(r).Some?
    ensures KeyFor(c, candidate, r, s, z) == Infinity || Small(KeyFor(c, candidate, r, s, z))
  {
    LogOfKey(c, log, candidate, r, s, z);
    match KeyFor(c, candidate, r, s, z)
    case Infinity =>
    case Affine(x, y) => assert c.onCurve(Affine(x, y));
  }

  /** The result does not depend on which of the two square roots the library returns. */
  lemma RootDoesNotMatter(c: Curve, c': Curve, log: Point -> nat, r: int, s: int, z: int)
    requires Laws(c, log) && Laws(c', log) && SameButRoots(c, c')
    ensures Recovery(c, r, s, z) == Recovery(c', r, s, z)
  {
    var x := r % c.p;
    var a := c.Polynomial(x);
    assert c'.Polynomial(x) == a;
    assert c.root(a).Some? ==> RootOf(c.root(a).value, a, c'.p);
    assert c'.root(a).Some? ==> RootOf(c'.root(a).value, a, c.p);
    if c.inverse(r).Some? && c.root(a).Some? {
      SamePointLaws(c, c');
      SameRoots(c, c', a);
      SameCandidates(c, c', x, a);
      SameKeyFor(c, c', r, s, z);
      SameOutcome(c, log, r, s, z, x, c.root(a).value, c'.root(a).value, KeyOf(c', r, s, z));
    }
  }

  lemma SameCandidates(c: Curve, c': Curve, x: nat, a: int)
    requires c.Proper() && PointLaws(c) && RootLaws(c)
    requires SameButRoots(c, c') && PointLaws(c') && RootLaws(c')
    requires x < c.p && a == c.Polynomial(x) && a == c'.Polynomial(x) && c.root(a).Some? && c'.root(a).Some?
    ensures var y, y' := c.root(a).value, c'.root(a).value;
            && y < c.p && y' < c.p
            && OnlyOnCurve(c, BothSigns(c, x, y)) == Candidates(c.p, x, y)
            && OnlyOnCurve(c', BothSigns(c', x, y')) == Candidates(c.p, x, y')
            && forall i :: 0 <= i < |Candidates(c.p, x, y)| ==> c.onCurve(Candidates(c.p, x, y)[i])
  {
    CandidatesAre(c, x, c.root(a).value);
    CandidatesAre(c', x, c'.root(a).value);
  }

  lemma SameRoots(c: Curve, c': Curve, a: int)
    requires c.Proper() && RootLaws(c) && SameButRoots(c, c') && RootLaws(c') && c.root(a).Some? && c'.root(a).Some?
    ensures var y, y' := c.root(a).value, c'.root(a).value;
            y < c.p && y' < c.p && (y' == y || (y' == c.p - y && y != 0))
  {
    var y, y' := c.root(a).value, c'.root(a).value;
    assert RootOf(y, a, c.p) && RootOf(y', a, c.p);
    SameSquare(c, y, y', a);
  }

  lemma SamePointLaws(c: Curve, c': Curve)
    requires c.Proper() && PointLaws(c) && SameButRoots(c, c')
    ensures PointLaws(c')
  {
    SamePolynomial(c, c');
  }

  lemma SamePolynomial(c: Curve, c': Curve)
    requires c.Proper() && SameButRoots(c, c')
    ensures forall x :: c'.Polynomial(x) == c.Polynomial(x)
  {
  }

  lemma SameOutcome(c: Curve, log: Point -> nat, r: int, s: int, z: int, x: nat, y: nat, y': nat, key: Point -> Point)
    requires Laws(c, log) && c.inverse(r).Some? && y < c.p && y' < c.p && (y' == y || (y' == c.p - y && y != 0))
    requires forall i :: 0 <= i < |Candidates(c.p, x, y)| ==> c.onCurve(Candidates(c.p, x, y)[i])
    requires forall q :: key(q) == KeyFor(c, q, r, s, z)
    ensures Outcome(KeysFor(KeyOf(c, r, s, z), Candidates(c.p, x, y))) == Outcome(KeysFor(key, Candidates(c.p, x, y')))
  {
    SameKeys(KeyOf(c, r, s, z), key, Candidates(c.p, x, y'));
    if y' != y {
      var a, b := Affine(x, y), Affine(x, c.p - y);
      assert Candidates(c.p, x, y) == [a, b] && Candidates(c.p, x, y') == [b, a];
      assert c.onCurve(Candidates(c.p, x, y)[0]) && c.onCurve(Candidates(c.p, x, y)[1]);
      SmallKey(c, log, a, r, s, z);
      SmallKey(c, log, b, r, s, z);
      SwappedCandidates(KeyOf(c, r, s, z), a, b);
    }
  }

  lemma {:induction false} SameKeys(key: Point -> Point, key': Point -> Point, candidates: seq<Point>)
    requires forall q :: key(q) == key'(q)
    ensures KeysFor(key, candidates) == KeysFor(key', candidates)
  {
    if candidates != [] {
      SameKeys(key, key', candidates[..|candidates| - 1]);
    }
  }

  lemma SameKeyFor(c: Curve, c': Curve, r: int, s: int, z: int)
    requires c.Proper() && SameButRoots(c, c') && c.inverse(r).Some?
    ensures forall q :: KeyOf(c', r, s, z)(q) == KeyFor(c, q, r, s, z)
  {
  }
}

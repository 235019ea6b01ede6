/** Recovery of the public key from an ECDSA signature (section 4.1.6 of SEC 1), over an abstract
  * curve.
  */
module KeyRecovery {
  import opened Ideal
  import opened LittleEndian
  import opened Sequences
  import opened Modular

  datatype Point = Infinity | Affine(x: nat, y: nat)

  /** A curve y^2 = x^3 - 3x + b over the integers modulo p whose group has order n, and the
      arithmetic of the libraries the source calls. Which of two square roots `root` returns is not
      specified. */
  datatype Curve = Curve(
    p: nat,
    n: nat,
    b: int,
    generator: Point,
    onCurve: Point -> bool,
    add: (Point, Point) -> Point,
    mul: (nat, Point) -> Point,
    inverse: int -> Option<nat>,
    root: int -> Option<nat>)
  {
    predicate Proper() {
      2 < n <= p && p % 2 == 1 && p <= Power256(48)
    }

    function Polynomial(x: int): (r: int)
      requires Proper()
    {
      (x * x * x - (2 * x + x) + b) % p
    }
  }

  // ---- The laws of the libraries, as hypotheses ----

  ghost predicate PointLaws(c: Curve)
    requires c.Proper()
  {
    && c.onCurve(Infinity)
    && forall x: nat, y: nat ::
         c.onCurve(Affine(x, y)) <==> x < c.p && y < c.p && Congruent(y * y, c.Polynomial(x), c.p)
  }

  /** Division modulo n. */
  ghost predicate InverseLaws(c: Curve) {
    && (forall a :: c.inverse(a).Some? ==> c.inverse(a).value < c.n && Congruent(a * c.inverse(a).value, 1, c.n))
    && (forall a :: c.inverse(a).None? <==> Congruent(a, 0, c.n))
  }

  ghost predicate RootOf(y: int, a: int, p: int) {
    Congruent(y * y, a, p)
  }

  /** Square roots modulo the prime p: at most two, of either sign. */
  ghost predicate RootLaws(c: Curve) {
    && (forall a :: c.root(a).Some? ==> c.root(a).value < c.p && RootOf(c.root(a).value, a, c.p))
    && (forall a, y :: RootOf(y, a, c.p) ==> c.root(a).Some?)
    && (forall a, y, y' :: RootOf(y, a, c.p) && RootOf(y', a, c.p) ==> Congruent(y, y', c.p) || Congruent(y, -y', c.p))
  }

  /** The points of the curve are the n multiples of the generator; `log` says which. */
  ghost predicate GroupLaws(c: Curve, log: Point -> nat) {
    && c.onCurve(c.generator) && log(c.generator) == 1 && log(Infinity) == 0
    && (forall q :: c.onCurve(q) ==> log(q) < c.n)
    && (forall q, q' :: c.onCurve(q) && c.onCurve(q') && log(q) == log(q') ==> q == q')
    && (forall q, q' {:trigger c.add(q, q')} :: c.onCurve(q) && c.onCurve(q') ==>
          c.onCurve(c.add(q, q')) && Congruent(log(c.add(q, q')), log(q) + log(q'), c.n))
    && (forall k: nat, q {:trigger c.mul(k, q)} :: c.onCurve(q) ==>
          c.onCurve(c.mul(k, q)) && Congruent(log(c.mul(k, q)), k * log(q), c.n))
  }

  ghost predicate Laws(c: Curve, log: Point -> nat) {
    c.Proper() && PointLaws(c) && InverseLaws(c) && RootLaws(c) && GroupLaws(c, log)
  }

  // ---- Verification, section 4.1.4 of SEC 1 ----

  /** The point whose x-coordinate is compared with r. */
  function CheckedPoint(c: Curve, q: Point, r: int, s: int, z: int): (result: Point)
    requires c.Proper() && c.inverse(s).Some?
  {
    var w := c.inverse(s).value;
    c.add(c.mul((z * w) % c.n, c.generator), c.mul((r * w) % c.n, q))
  }

  predicate InRange(c: Curve, r: int, s: int) {
    1 <= r < c.n && 1 <= s < c.n
  }

  predicate Verifies(c: Curve, q: Point, r: int, s: int, z: int)
    requires c.Proper()
  {
    && q != Infinity && c.onCurve(q)
    && InRange(c, r, s)
    && c.inverse(s).Some?
    && CheckedPoint(c, q, r, s, z) != Infinity
    && CheckedPoint(c, q, r, s, z).x % c.n == r
  }

  // ---- Recovery ----

  datatype RecoveryError = NoInverse | NoRoot | BadKey

  datatype Recovered = Keys(keys: seq<Point>) | Failed(error: RecoveryError)

  /** The key for one candidate of the signer's point. */
  function KeyFor(c: Curve, candidate: Point, r: int, s: int, z: int): (result: Point)
    requires c.Proper() && c.inverse(r).Some?
  {
    var rInv := c.inverse(r).value;
    c.add(c.mul((-((z * rInv) % c.n)) % c.n, c.generator), c.mul((s * rInv) % c.n, candidate))
  }

  function KeyOf(c: Curve, r: int, s: int, z: int): (result: Point -> Point)
    requires c.Proper() && c.inverse(r).Some?
  {
    q => KeyFor(c, q, r, s, z)
  }

  /** Encodings that are no point of the curve are skipped; y = p is one of them. */
  function OnlyOnCurve(c: Curve, points: seq<Point>): (r: seq<Point>) {
    if points == [] then []
    else
      var rest := OnlyOnCurve(c, points[..|points| - 1]);
      if c.onCurve(points[|points| - 1]) then rest + [points[|points| - 1]] else rest
  }

  /** The keys of all candidates; a key at infinity is an error. */
  function KeysFor(key: Point -> Point, candidates: seq<Point>): (r: Option<seq<Point>>) {
    if candidates == [] then Some([])
    else
      var last := key(candidates[|candidates| - 1]);
      match KeysFor(key, candidates[..|candidates| - 1])
      case None => None
      case Some(keys) => if last == Infinity then None else Some(keys + [last])
  }

  function BothSigns(c: Curve, x: nat, y: nat): (r: seq<Point>)
    requires y < c.p
  {
    [Affine(x, y), Affine(x, c.p - y)]
  }

  function Outcome(keys: Option<seq<Point>>): (r: Recovered) {
    if keys.None? then Failed(BadKey) else Keys(SortKeys(keys.value))
  }

  ghost function Recovery(c: Curve, r: int, s: int, z: int): (result: Recovered)
    requires c.Proper() && RootLaws(c)
  {
    var x := r % c.p;
    var y := c.root(c.Polynomial(x));
    if c.inverse(r).None? then Failed(NoInverse)
    else if y.None? then Failed(NoRoot)
    else Outcome(KeysFor(KeyOf(c, r, s, z), OnlyOnCurve(c, BothSigns(c, x, y.value))))
  }

  method RecoverPublicKey(c: Curve, r: int, s: int, z: int) returns (result: Recovered)
    requires c.Proper() && RootLaws(c)
    ensures result == Recovery(c, r, s, z)
  {
    var rInv := c.inverse(r);
    if rInv.None? {
      return Failed(NoInverse);
    }
    var pointX := r % c.p;
    var root := c.root(c.Polynomial(pointX));
    if root.None? {
      return Failed(NoRoot);
    }
    var pointY := root.value;
    var u1 := (z * rInv.value) % c.n;
    u1 := (-u1) % c.n;
    var u2 := (s * rInv.value) % c.n;
    var keys := TryBothSigns(c, pointX, pointY, u1, u2, KeyOf(c, r, s, z));
    return Outcome(keys);
  }

  /** The loop of recoverPublicKey: both y-coordinates are tried. */
  method TryBothSigns(c: Curve, pointX: nat, root: nat, u1: nat, u2: nat, ghost key: Point -> Point)
    returns (publicKeys: Option<seq<Point>>)
    requires root < c.p
    requires forall q :: key(q) == c.add(c.mul(u1, c.generator), c.mul(u2, q))
    ensures publicKeys == KeysFor(key, OnlyOnCurve(c, BothSigns(c, pointX, root)))
  {
    var pointY := root;
    var keys: seq<Point> := [];
    ghost var points := BothSigns(c, pointX, root);
    for i := 0 to 2
      invariant pointY == if i < 2 then root else c.p - root
      invariant KeysFor(key, OnlyOnCurve(c, points[..i])) == Some(keys)
    {
      if i == 1 {
        pointY := c.p - pointY;
      }
      var q := Affine(pointX, pointY);
      assert points[..i + 1][..i] == points[..i] && points[..i + 1][i] == q;
      if !c.onCurve(q) {
        continue;
      }
      AppendedCandidate(key, OnlyOnCurve(c, points[..i]), q);
      var p1 := c.mul(u1, c.generator);
      var p2 := c.mul(u2, q);
      var sum := c.add(p1, p2);
      if sum == Infinity {
        LaterCandidates(c, key, points, i + 1);
        return None;
      }
      keys := keys + [sum];
    }
    assert points[..2] == points;
    return Some(keys);
  }

  lemma AppendedCandidate(key: Point -> Point, candidates: seq<Point>, q: Point)
    requires KeysFor(key, candidates).Some?
    ensures KeysFor(key, candidates + [q])
         == if key(q) == Infinity then None else Some(KeysFor(key, candidates).value + [key(q)])
  {
    assert (candidates + [q])[..|candidates|] == candidates;
  }

  /** Later candidates do not undo an error. */
  lemma {:induction false} LaterCandidates(c: Curve, key: Point -> Point, points: seq<Point>, i: nat)
    requires i <= |points| && KeysFor(key, OnlyOnCurve(c, points[..i])).None?
    ensures KeysFor(key, OnlyOnCurve(c, points)).None?
    decreases |points|
  {
    var n := |points| - 1;
    if i == |points| {
      assert points[..i] == points;
    } else {
      assert points[..n][..i] == points[..i];
      LaterCandidates(c, key, points[..n], i);
      var rest := OnlyOnCurve(c, points[..n]);
      assert (rest + [points[n]])[..|rest|] == rest;
    }
  }

  // ---- Order of the keys ----

  /** Uncompressed encodings, 48 bytes per coordinate, highest byte first. */
  function Encoded(q: Point): (r: seq<byte>)
    requires q.Affine?
  {
    [4] + Backwards(LE(48, q.x)) + Backwards(LE(48, q.y))
  }

  predicate NotAfter(a: seq<byte>, b: seq<byte>) {
    a == [] || (b != [] && (a[0] < b[0] || (a[0] == b[0] && NotAfter(a[1..], b[1..]))))
  }

  function KeyNotAfter(a: Point, b: Point): (r: bool) {
    if a == Infinity then true else if b == Infinity then false else NotAfter(Encoded(a), Encoded(b))
  }

  function Insert(q: Point, keys: seq<Point>): (r: seq<Point>) {
    if keys == [] then [q]
    else if KeyNotAfter(q, keys[0]) then [q] + keys
    else [keys[0]] + Insert(q, keys[1..])
  }

  function SortKeys(keys: seq<Point>): (r: seq<Point>) {
    if keys == [] then [] else Insert(keys[0], SortKeys(keys[1..]))
  }
}

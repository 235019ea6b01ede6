/** The order in which recovered keys are returned, in numbers: it is that of the x-coordinates, and of the
  * y-coordinates where those are equal.
  */
module KeyOrder {
  import opened Ideal
  import opened LittleEndian
  import opened Sequences
  import opened KeyRecovery
  import opened KeyTheorems

  ghost predicate AtMost(a: Point, b: Point) {
    a.Affine? && b.Affine? && (a.x < b.x || (a.x == b.x && a.y <= b.y))
  }

  lemma {:induction false} NotAfterInParts(a: seq<byte>, b: seq<byte>, a': seq<byte>, b': seq<byte>)
    requires |a| == |b|
    ensures NotAfter(a + a', b + b') <==> if a == b then NotAfter(a', b') else NotAfter(a, b)
  {
    if a == [] {
      assert a + a' == a' && b + b' == b';
    } else {
      NotAfterInParts(a[1..], b[1..], a', b');
      assert (a + a')[1..] == a[1..] + a' && (b + b')[1..] == b[1..] + b';
      assert a == [a[0]] + a[1..] && b == [b[0]] + b[1..];
    }
  }

  lemma LowestLast(n: nat, x: nat)
    requires n > 0
    ensures Backwards(LE(n, x)) == Backwards(LE(n - 1, x / 256)) + [x % 256]
  {
    StepLE(n, x);
    BackwardsFirst(LE(n, x));
    assert LE(n, x)[1..] == LE(n - 1, x / 256);
  }

  lemma ByteOrder(x: nat, y: nat)
    ensures x <= y <==> x / 256 < y / 256 || (x / 256 == y / 256 && x % 256 <= y % 256)
  {
  }

  lemma LastByte(a: byte, b: byte)
    ensures NotAfter([a], [b]) <==> a <= b
  {
    assert [a][1..] == [] && [b][1..] == [];
  }

  /** Highest byte first, byte strings are ordered as the numbers. */
  lemma {:induction false} BigEndianOrder(n: nat, x: nat, y: nat)
    requires x < Power256(n) && y < Power256(n)
    ensures NotAfter(Backwards(LE(n, x)), Backwards(LE(n, y))) <==> x <= y
  {
    if n > 0 {
      var a, b := Backwards(LE(n - 1, x / 256)), Backwards(LE(n - 1, y / 256));
      var last: byte, last': byte := x % 256, y % 256;
      LowestLast(n, x);
      LowestLast(n, y);
      assert Backwards(LE(n, x)) == a + [last] && Backwards(LE(n, y)) == b + [last'];
      NotAfterInParts(a, b, [last], [last']);
      LastByte(last, last');
      ByteOrder(x, y);
      BigEndianOrder(n - 1, x / 256, y / 256);
      if a == b {
        EncodedNumber(n - 1, x / 256, y / 256);
      }
    }
  }

  lemma EncodingsInOrder(n: nat, x: nat, y: nat, x': nat, y': nat)
    requires x < Power256(n) && y < Power256(n) && x' < Power256(n) && y' < Power256(n)
    ensures NotAfter([4] + Backwards(LE(n, x)) + Backwards(LE(n, y)), [4] + Backwards(LE(n, x')) + Backwards(LE(n, y')))
       <==> x < x' || (x == x' && y <= y')
  {
    var a, b, a', b' := Backwards(LE(n, x)), Backwards(LE(n, y)), Backwards(LE(n, x')), Backwards(LE(n, y'));
    Associative([4], a, b);
    Associative([4], a', b');
    NotAfterInParts([4], [4], a + b, a' + b');
    NotAfterInParts(a, a', b, b');
    BigEndianOrder(n, x, x');
    BigEndianOrder(n, y, y');
    if a == a' {
      EncodedNumber(n, x, x');
    }
  }

  lemma KeysInOrder(a: Point, b: Point)
    requires Small(a) && Small(b)
    ensures KeyNotAfter(a, b) <==> AtMost(a, b)
  {
    EncodingsInOrder(48, a.x, a.y, b.x, b.y);
  }

  ghost predicate Ordered(keys: seq<Point>) {
    forall i, j :: 0 <= i < j < |keys| ==> AtMost(keys[i], keys[j])
  }

  ghost predicate AllSmall(keys: seq<Point>) {
    forall i :: 0 <= i < |keys| ==> Small(keys[i])
  }

  lemma {:induction false} InsertOrders(q: Point, keys: seq<Point>)
    requires Small(q) && AllSmall(keys) && Ordered(keys)
    ensures AllSmall(Insert(q, keys)) && Ordered(Insert(q, keys))
  {
    if keys != [] {
      KeysInOrder(q, keys[0]);
      if !KeyNotAfter(q, keys[0]) {
        InsertOrders(q, keys[1..]);
        InsertKeeps(q, keys[1..]);
        var rest := Insert(q, keys[1..]);
        forall j | 0 <= j < |rest|
          ensures AtMost(keys[0], rest[j])
        {
          assert rest[j] in multiset(rest);
          assert rest[j] == q || rest[j] in keys[1..];
        }
      }
    }
  }

  /** The keys are sorted by their coordinates. */
  lemma {:induction false} SortOrders(keys: seq<Point>)
    requires AllSmall(keys)
    ensures AllSmall(SortKeys(keys)) && Ordered(SortKeys(keys))
  {
    if keys != [] {
      SortOrders(keys[1..]);
      InsertOrders(keys[0], SortKeys(keys[1..]));
    }
  }

  /** What recoverPublicKey returns is in that order. */
  lemma RecoveredInOrder(c: Curve, log: Point -> nat, r: int, s: int, z: int)
    requires Laws(c, log) && Recovery(c, r, s, z).Keys?
    ensures Ordered(Recovery(c, r, s, z).keys)
  {
    var x := r % c.p;
    var y := c.root(c.Polynomial(x)).value;
    var keys := KeysFor(KeyOf(c, r, s, z), OnlyOnCurve(c, BothSigns(c, x, y))).value;
    forall i | 0 <= i < |keys|
      ensures Small(keys[i])
    {
      SortedMembers(keys, keys[i]);
      RecoveredKeysVerify(c, log, r, s, z, keys[i]);
      assert c.onCurve(Affine(keys[i].x, keys[i].y));
    }
    SortOrders(keys);
  }
}

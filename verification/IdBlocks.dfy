/** Construction of ID blocks: instead of signing, a constant signature is written down and the key
  * that makes it valid is recovered.
  */
module IdBlocks {
  import opened Ideal
  import opened LittleEndian
  import opened Sequences
  import opened KeyRecovery
  import opened KeyTheorems
  import opened KeyOrder
  import opened Modular
  import opened IdBlock

  /** SHA-384, read as a big-endian number; left uninterpreted. */
  const HashNumber: seq<byte> -> nat

  function FromBE(b: seq<byte>): (r: nat) {
    FromLE(Backwards(b))
  }

  lemma {:induction false} BlankIsZero(n: nat)
    ensures FromLE(Blank(n)) == 0
  {
    if n > 0 {
      BlankIsZero(n - 1);
      assert Blank(n)[1..] == Blank(n - 1);
    }
  }

  /** Zeros behind a little-endian number do not change it. */
  lemma {:induction false} PaddedNumber(b: seq<byte>, n: nat)
    ensures FromLE(b + Blank(n)) == FromLE(b)
  {
    if b == [] {
      assert b + Blank(n) == Blank(n);
      BlankIsZero(n);
    } else {
      PaddedNumber(b[1..], n);
      assert (b + Blank(n))[1..] == b[1..] + Blank(n);
    }
  }

  datatype Blocks = Blocks(block: Block, auth: Authentication) | NoBlocks(error: RecoveryError)

  function BlockOf(launchDigest: Bytes48, policy: Word64): (r: Block) {
    Block(launchDigest, [1] + Blank(15), [2] + Blank(15), 1, 2, policy)
  }

  function Coordinate(x: nat): (r: Bytes72) {
    LE(48, x) + Blank(24)
  }

  function AuthenticationFor(key: Point): (a: Authentication)
    requires key.Affine?
    ensures a.Ok()
  {
    Authentication(1, 0, Blank(0x38),
                   Signature([2] + Blank(71), [1] + Blank(71), Blank(0x170)),
                   PublicKey(2, Coordinate(key.x), Coordinate(key.y), Blank(0x370)),
                   Blank(0x3c),
                   Signature(Blank(0x48), Blank(0x48), Blank(0x170)),
                   PublicKey(0, Blank(0x48), Blank(0x48), Blank(0x370)),
                   Blank(0x37c))
  }

  ghost function BlocksFor(c: Curve, launchDigest: Bytes48, policy: Word64): (r: Blocks)
    requires c.Proper() && RootLaws(c)
  {
    var block := BlockOf(launchDigest, policy);
    match Recovery(c, 2, 1, HashNumber(block.Marshal()))
    case Failed(error) => NoBlocks(error)
    case Keys(keys) =>
      if keys == [] || keys[0] == Infinity then NoBlocks(BadKey) else Blocks(block, AuthenticationFor(keys[0]))
  }

  /** What the platform checks: the ID block is of the version it knows, algorithm and curve of the ID key are
      ECDSA with SHA-384 and P-384, and the signature in the authentication block is one of the ID block, under the
      key in the authentication block. */
  predicate PlatformAccepts(c: Curve, block: Block, auth: Authentication)
    requires c.Proper()
  {
    && block.version == 1 && auth.idKeyAlgo == 1 && auth.idKey.curveID == 2
    && Verifies(c, Affine(FromLE(auth.idKey.qx), FromLE(auth.idKey.qy)),
             FromLE(auth.idBlockSig.r), FromLE(auth.idBlockSig.s), HashNumber(block.Marshal()))
  }

  lemma SmallNumber(v: byte, n: nat)
    ensures FromLE([v] + Blank(n)) == v
  {
    PaddedNumber([v], n);
    assert [v][1..] == [];
    assert FromLE([v]) == v + 256 * FromLE([]);
  }

  lemma CoordinateRoundTrip(x: nat)
    requires x < Power256(48)
    ensures FromLE(Coordinate(x)) == x
  {
    PaddedNumber(LE(48, x), 24);
    EncodeLE(48, x);
  }

  /** Whenever blocks are made, the platform accepts them, whatever the launch digest. */
  lemma PlatformAcceptsBlocks(c: Curve, log: Point -> nat, launchDigest: Bytes48, policy: Word64)
    requires Laws(c, log) && BlocksFor(c, launchDigest, policy).Blocks?
    ensures var b := BlocksFor(c, launchDigest, policy);
            && PlatformAccepts(c, b.block, b.auth) && b.block.ld == launchDigest && b.block.policy == policy
            && FromLE(b.block.familyID) == 1 && FromLE(b.block.imageID) == 2 && b.block.guestSVN == 2
            && b.auth.authKeyAlgo == 0
  {
    var z := HashNumber(BlockOf(launchDigest, policy).Marshal());
    var key := Recovery(c, 2, 1, z).keys[0];
    RecoveredKeysVerify(c, log, 2, 1, z, key);
    SmallNumber(2, 71);
    SmallNumber(1, 71);
    SmallNumber(1, 15);
    SmallNumber(2, 15);
    assert c.onCurve(Affine(key.x, key.y));
    CoordinateRoundTrip(key.x);
    CoordinateRoundTrip(key.y);
  }

  /** Of the recovered keys, the one in the authentication block is the one with the smallest coordinates. */
  lemma LeastKeyIsChosen(c: Curve, log: Point -> nat, launchDigest: Bytes48, policy: Word64)
    requires Laws(c, log) && BlocksFor(c, launchDigest, policy).Blocks?
    ensures var keys := Recovery(c, 2, 1, HashNumber(BlockOf(launchDigest, policy).Marshal())).keys;
            var idKey := BlocksFor(c, launchDigest, policy).auth.idKey;
            var chosen := Affine(FromLE(idKey.qx), FromLE(idKey.qy));
            chosen in keys && forall key :: key in keys ==> AtMost(chosen, key)
  {
    var z := HashNumber(BlockOf(launchDigest, policy).Marshal());
    var key := Recovery(c, 2, 1, z).keys[0];
    RecoveredInOrder(c, log, 2, 1, z);
    RecoveredKeysVerify(c, log, 2, 1, z, key);
    assert c.onCurve(Affine(key.x, key.y));
    CoordinateRoundTrip(key.x);
    CoordinateRoundTrip(key.y);
  }

  /** Blocks are made exactly if keys are recovered; the choice of the first key is always possible. */
  lemma BlocksExactlyIfRecovered(c: Curve, log: Point -> nat, launchDigest: Bytes48, policy: Word64)
    requires Laws(c, log)
    ensures BlocksFor(c, launchDigest, policy).Blocks?
       <==> Recovery(c, 2, 1, HashNumber(BlockOf(launchDigest, policy).Marshal())).Keys?
  {
    var z := HashNumber(BlockOf(launchDigest, policy).Marshal());
    if Recovery(c, 2, 1, z).Keys? {
      RecoveredKeysVerify(c, log, 2, 1, z, Infinity);
      RecoveredKeysVerify(c, log, 2, 1, z, Recovery(c, 2, 1, z).keys[0]);
    }
  }

  /** Blocks cannot be made if 2 is no x-coordinate of the curve, or if the hash of the ID block is the exponent of
      a point there; for every other hash they can. */
  lemma BlocksFailExactly(c: Curve, log: Point -> nat, launchDigest: Bytes48, policy: Word64)
    requires Laws(c, log)
    ensures var z := HashNumber(BlockOf(launchDigest, policy).Marshal());
            BlocksFor(c, launchDigest, policy).Blocks? <==>
              && (exists q: Point :: q.Affine? && c.onCurve(q) && q.x == 2)
              && (forall q: Point :: q.Affine? && c.onCurve(q) && q.x == 2 ==> !Congruent(z, log(q), c.n))
  {
    var z := HashNumber(BlockOf(launchDigest, policy).Marshal());
    BlocksExactlyIfRecovered(c, log, launchDigest, policy);
    RecoveryFailsExactly(c, log, 2, 1, z);
    RemainderInRange(2, c.n, c.p);
    if Congruent(2, 0, c.n) {
      SmallEqual(2, 0, c.n);
    }
    forall q: Point | q.Affine? && c.onCurve(q) && q.x == 2
      ensures Keyless(c, log, 2, 1, z, q) <==> Congruent(z, log(q), c.n)
    {
      assert 1 * log(q) == log(q);
    }
  }

  /** The same blocks, whichever square root the library returns. */
  lemma SameBlocks(c: Curve, c': Curve, log: Point -> nat, launchDigest: Bytes48, policy: Word64)
    requires Laws(c, log) && Laws(c', log) && SameButRoots(c, c')
    ensures BlocksFor(c, launchDigest, policy) == BlocksFor(c', launchDigest, policy)
  {
    RootDoesNotMatter(c, c', log, 2, 1, HashNumber(BlockOf(launchDigest, policy).Marshal()));
  }

  lemma EncodedParts(q: Point)
    requires q.Affine?
    ensures Backwards(Encoded(q)[1..49]) == LE(48, q.x) && Backwards(Encoded(q)[49..]) == LE(48, q.y)
  {
    var x, y := Backwards(LE(48, q.x)), Backwards(LE(48, q.y));
    assert Encoded(q)[1..49] == x && Encoded(q)[49..] == y;
    BackwardsTwice(LE(48, q.x));
    BackwardsTwice(LE(48, q.y));
  }

  method IDBlocksFromLaunchDigest(c: Curve, ghost log: Point -> nat, launchDigest: Bytes48, guestPolicy: Word64)
    returns (blocks: Blocks)
    requires Laws(c, log)
    ensures blocks == BlocksFor(c, launchDigest, guestPolicy)
    ensures blocks.Blocks? ==> PlatformAccepts(c, blocks.block, blocks.auth)
  {
    var idBlk := BlockOf(launchDigest, guestPolicy);
    var idBlockBytes := idBlk.Marshal();
    var validR := [2] + Blank(71);
    var validS := [1] + Blank(71);
    BackwardsTwice(validR);
    BackwardsTwice(validS);
    SmallNumber(2, 71);
    SmallNumber(1, 71);
    var r := FromBE(Backwards(validR));
    var s := FromBE(Backwards(validS));
    var pubKeys := RecoverPublicKey(c, r, s, HashNumber(idBlockBytes));
    if pubKeys.Failed? {
      return NoBlocks(pubKeys.error);
    }
    BlocksExactlyIfRecovered(c, log, launchDigest, guestPolicy);
    var key := pubKeys.keys[0];
    var pubKeyBytes := Encoded(key);
    EncodedParts(key);
    var xLittleEndian := Backwards(pubKeyBytes[1..49]);
    var yLittleEndian := Backwards(pubKeyBytes[49..]);
    var idAuth := AuthenticationFor(key).(
      idKey := PublicKey(2, xLittleEndian + Blank(24), yLittleEndian + Blank(24), Blank(0x370)));
    PlatformAcceptsBlocks(c, log, launchDigest, guestPolicy);
    return Blocks(idBlk, idAuth);
  }
}

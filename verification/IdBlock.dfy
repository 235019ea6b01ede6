/** The ID block and the ID authentication block of a confidential guest: fixed layouts, nested, and
  * their construction around a constant signature.
  */
module IdBlock {
  import opened Ideal
  import opened LittleEndian
  import opened Sequences

  type Bytes16 = b: seq<byte> | |b| == 0x10 witness seq(0x10, _ => 0)
  type Bytes48 = b: seq<byte> | |b| == 0x30 witness seq(0x30, _ => 0)
  type Bytes72 = b: seq<byte> | |b| == 0x48 witness seq(0x48, _ => 0)
  type Word32 = v: nat | v < 0x1_0000_0000
  type Word64 = v: nat | v < 0x1_0000_0000_0000_0000

  function Blank(n: nat): (b: seq<byte>)
    ensures |b| == n
  {
    seq(n, _ => 0)
  }

  // ---- Signature and public key ----

  datatype Signature = Signature(r: Bytes72, s: Bytes72, reserved: seq<byte>) {
    predicate Ok() { |reserved| == 0x170 }

    function Marshal(): (data: seq<byte>)
      requires Ok()
      ensures |data| == 0x200
    {
      r + (s + reserved)
    }
  }

  function UnmarshalSignature(data: seq<byte>): (r: Option<Signature>) {
    if |data| != 0x200 then None else Some(Signature(data[0x00..0x48], data[0x48..0x90], data[0x90..0x200]))
  }

  lemma SignatureCodec(x: Signature, data: seq<byte>)
    requires x.Ok()
    ensures UnmarshalSignature(data) == Some(x) <==> data == x.Marshal()
  {
    if |data| == 0x200 {
      assert data == data[0x00..0x48] + (data[0x48..0x90] + data[0x90..0x200]);
      SameHalves(data[0x00..0x48], data[0x48..0x90] + data[0x90..0x200], x.r, x.s + x.reserved);
      SameHalves(data[0x48..0x90], data[0x90..0x200], x.s, x.reserved);
    }
  }

  datatype PublicKey = PublicKey(curveID: Word32, qx: Bytes72, qy: Bytes72, reserved: seq<byte>) {
    predicate Ok() { |reserved| == 0x370 }

    function Marshal(): (data: seq<byte>)
      requires Ok()
      ensures |data| == 0x404
    {
      LE(4, curveID) + (qx + (qy + reserved))
    }
  }

  function UnmarshalPublicKey(data: seq<byte>): (r: Option<PublicKey>) {
    if |data| != 0x404 then None
    else
      Widths();
      DecodeLE(data[0x00..0x04]);
      Some(PublicKey(FromLE(data[0x00..0x04]), data[0x04..0x4C], data[0x4C..0x94], data[0x94..0x404]))
  }

  lemma PublicKeyCodec(x: PublicKey, data: seq<byte>)
    requires x.Ok()
    ensures UnmarshalPublicKey(data) == Some(x) <==> data == x.Marshal()
  {
    if |data| == 0x404 {
      var d0, d1, d2, d3 := data[0x00..0x04], data[0x04..0x4C], data[0x4C..0x94], data[0x94..0x404];
      assert data == d0 + (d1 + (d2 + d3));
      Widths();
      CodecLE(d0, x.curveID);
      SameHalves(d0, d1 + (d2 + d3), LE(4, x.curveID), x.qx + (x.qy + x.reserved));
      SameHalves(d1, d2 + d3, x.qx, x.qy + x.reserved);
      SameHalves(d2, d3, x.qy, x.reserved);
    }
  }

  // ---- ID block ----

  datatype Block = Block(ld: Bytes48, familyID: Bytes16, imageID: Bytes16, version: Word32, guestSVN: Word32,
                         policy: Word64) {
    function Marshal(): (data: seq<byte>)
      ensures |data| == 0x60
    {
      ld + (familyID + (imageID + (LE(4, version) + (LE(4, guestSVN) + LE(8, policy)))))
    }
  }

  function UnmarshalBlock(data: seq<byte>): (r: Option<Block>) {
    if |data| != 0x60 then None
    else
      Widths();
      DecodeLE(data[0x50..0x54]);
      DecodeLE(data[0x54..0x58]);
      DecodeLE(data[0x58..0x60]);
      Some(Block(data[0x00..0x30], data[0x30..0x40], data[0x40..0x50],
                 FromLE(data[0x50..0x54]), FromLE(data[0x54..0x58]), FromLE(data[0x58..0x60])))
  }

  lemma SixParts(data: seq<byte>)
    requires |data| == 0x60
    ensures data == data[0x00..0x30] + (data[0x30..0x40] + (data[0x40..0x50]
                    + (data[0x50..0x54] + (data[0x54..0x58] + data[0x58..0x60]))))
  {
    assert data[0x54..] == data[0x54..0x58] + data[0x58..0x60];
    assert data[0x50..] == data[0x50..0x54] + data[0x54..];
    assert data[0x40..] == data[0x40..0x50] + data[0x50..];
    assert data[0x30..] == data[0x30..0x40] + data[0x40..];
    assert data == data[0x00..0x30] + data[0x30..];
  }

  lemma NumbersCodec(d3: seq<byte>, d4: seq<byte>, d5: seq<byte>, version: Word32, guestSVN: Word32, policy: Word64)
    requires |d3| == 4 && |d4| == 4 && |d5| == 8
    ensures d3 + (d4 + d5) == LE(4, version) + (LE(4, guestSVN) + LE(8, policy))
       <==> FromLE(d3) == version && FromLE(d4) == guestSVN && FromLE(d5) == policy
  {
    Widths();
    CodecLE(d3, version);
    CodecLE(d4, guestSVN);
    CodecLE(d5, policy);
    SameHalves(d3, d4 + d5, LE(4, version), LE(4, guestSVN) + LE(8, policy));
    SameHalves(d4, d5, LE(4, guestSVN), LE(8, policy));
  }

  lemma BlockCodec(x: Block, data: seq<byte>)
    ensures UnmarshalBlock(data) == Some(x) <==> data == x.Marshal()
  {
    if |data| == 0x60 {
      var d0, d1, d2 := data[0x00..0x30], data[0x30..0x40], data[0x40..0x50];
      var d3, d4, d5 := data[0x50..0x54], data[0x54..0x58], data[0x58..0x60];
      SixParts(data);
      NumbersCodec(d3, d4, d5, x.version, x.guestSVN, x.policy);
      var e := LE(4, x.version) + (LE(4, x.guestSVN) + LE(8, x.policy));
      SameHalves(d0, d1 + (d2 + (d3 + (d4 + d5))), x.ld, x.familyID + (x.imageID + e));
      SameHalves(d1, d2 + (d3 + (d4 + d5)), x.familyID, x.imageID + e);
      SameHalves(d2, d3 + (d4 + d5), x.imageID, e);
    }
  }

  /** The offsets of the ID block. */
  lemma BlockLayout(x: Block)
    ensures var data := x.Marshal();
            && |data| == 0x60
            && data[0x00..0x30] == x.ld && data[0x30..0x40] == x.familyID && data[0x40..0x50] == x.imageID
            && data[0x50..0x54] == LE(4, x.version) && data[0x54..0x58] == LE(4, x.guestSVN)
            && data[0x58..0x60] == LE(8, x.policy)
  {
    var data := x.Marshal();
    BlockCodec(x, data);
    Widths();
    DecodeLE(data[0x50..0x54]);
    DecodeLE(data[0x54..0x58]);
    DecodeLE(data[0x58..0x60]);
  }

  // ---- ID authentication block ----

  datatype Authentication = Authentication(
    idKeyAlgo: Word32,
    authKeyAlgo: Word32,
    reserved0: seq<byte>,
    idBlockSig: Signature,
    idKey: PublicKey,
    reserved1: seq<byte>,
    idKeySig: Signature,
    authKey: PublicKey,
    reserved2: seq<byte>)
  {
    predicate Ok() {
      |reserved0| == 0x38 && idBlockSig.Ok() && idKey.Ok() && |reserved1| == 0x3c && idKeySig.Ok() && authKey.Ok()
      && |reserved2| == 0x37c
    }

    /** Algorithms, signature of the block, and the key for it. */
    function MarshalFront(): (data: seq<byte>)
      requires Ok()
      ensures |data| == 0x644
    {
      LE(4, idKeyAlgo) + (LE(4, authKeyAlgo) + (reserved0 + (idBlockSig.Marshal() + idKey.Marshal())))
    }

    /** The author's part. */
    function MarshalBack(): (data: seq<byte>)
      requires Ok()
      ensures |data| == 0x9bc
    {
      reserved1 + (idKeySig.Marshal() + (authKey.Marshal() + reserved2))
    }

    function Marshal(): (data: seq<byte>)
      requires Ok()
      ensures |data| == 0x1000
    {
      MarshalFront() + MarshalBack()
    }
  }

  function UnmarshalAuthentication(data: seq<byte>): (a: Option<Authentication>)
    ensures a.Some? ==> a.value.Ok()
  {
    if |data| != 0x1000 then None
    else
      Widths();
      DecodeLE(data[0x00..0x04]);
      DecodeLE(data[0x04..0x08]);
      Some(Authentication(
             FromLE(data[0x00..0x04]), FromLE(data[0x04..0x08]), data[0x08..0x40],
             UnmarshalSignature(data[0x40..0x240]).value, UnmarshalPublicKey(data[0x240..0x644]).value,
             data[0x644..0x680],
             UnmarshalSignature(data[0x680..0x880]).value, UnmarshalPublicKey(data[0x880..0xC84]).value,
             data[0xC84..0x1000]))
  }

  lemma FrontParts(data: seq<byte>)
    requires |data| == 0x1000
    ensures data[..0x644]
              == data[0x00..0x04] + (data[0x04..0x08] + (data[0x08..0x40] + (data[0x40..0x240] + data[0x240..0x644])))
  {
    assert data[0x40..0x644] == data[0x40..0x240] + data[0x240..0x644];
    assert data[0x08..0x644] == data[0x08..0x40] + data[0x40..0x644];
    assert data[0x04..0x644] == data[0x04..0x08] + data[0x08..0x644];
    assert data[..0x644] == data[0x00..0x04] + data[0x04..0x644];
  }

  lemma BackParts(data: seq<byte>)
    requires |data| == 0x1000
    ensures data[0x644..] == data[0x644..0x680] + (data[0x680..0x880] + (data[0x880..0xC84] + data[0xC84..0x1000]))
  {
    assert data[0x880..] == data[0x880..0xC84] + data[0xC84..0x1000];
    assert data[0x680..] == data[0x680..0x880] + data[0x880..];
    assert data[0x644..] == data[0x644..0x680] + data[0x680..];
  }

  lemma FrontCodec(x: Authentication, d0: seq<byte>, d1: seq<byte>, d2: seq<byte>, d3: seq<byte>, d4: seq<byte>)
    requires x.Ok() && |d0| == 4 && |d1| == 4 && |d2| == 0x38 && |d3| == 0x200 && |d4| == 0x404
    ensures d0 + (d1 + (d2 + (d3 + d4))) == x.MarshalFront()
       <==> FromLE(d0) == x.idKeyAlgo && FromLE(d1) == x.authKeyAlgo && d2 == x.reserved0
            && UnmarshalSignature(d3) == Some(x.idBlockSig) && UnmarshalPublicKey(d4) == Some(x.idKey)
  {
    Widths();
    CodecLE(d0, x.idKeyAlgo);
    CodecLE(d1, x.authKeyAlgo);
    SignatureCodec(x.idBlockSig, d3);
    PublicKeyCodec(x.idKey, d4);
    var e3, e4 := x.idBlockSig.Marshal(), x.idKey.Marshal();
    SameHalves(d0, d1 + (d2 + (d3 + d4)), LE(4, x.idKeyAlgo), LE(4, x.authKeyAlgo) + (x.reserved0 + (e3 + e4)));
    SameHalves(d1, d2 + (d3 + d4), LE(4, x.authKeyAlgo), x.reserved0 + (e3 + e4));
    SameHalves(d2, d3 + d4, x.reserved0, e3 + e4);
    SameHalves(d3, d4, e3, e4);
  }

  lemma BackCodec(x: Authentication, d5: seq<byte>, d6: seq<byte>, d7: seq<byte>, d8: seq<byte>)
    requires x.Ok() && |d5| == 0x3c && |d6| == 0x200 && |d7| == 0x404 && |d8| == 0x37c
    ensures d5 + (d6 + (d7 + d8)) == x.MarshalBack()
       <==> d5 == x.reserved1 && UnmarshalSignature(d6) == Some(x.idKeySig) && UnmarshalPublicKey(d7) == Some(x.authKey)
            && d8 == x.reserved2
  {
    SignatureCodec(x.idKeySig, d6);
    PublicKeyCodec(x.authKey, d7);
    var e6, e7 := x.idKeySig.Marshal(), x.authKey.Marshal();
    SameHalves(d5, d6 + (d7 + d8), x.reserved1, e6 + (e7 + x.reserved2));
    SameHalves(d6, d7 + d8, e6, e7 + x.reserved2);
    SameHalves(d7, d8, e7, x.reserved2);
  }

  /** Both directions, for every block and all octets, reserved ones included. */
  lemma AuthenticationCodec(x: Authentication, data: seq<byte>)
    requires x.Ok()
    ensures UnmarshalAuthentication(data) == Some(x) <==> data == x.Marshal()
  {
    if |data| == 0x1000 {
      FrontParts(data);
      BackParts(data);
      FrontCodec(x, data[0x00..0x04], data[0x04..0x08], data[0x08..0x40], data[0x40..0x240], data[0x240..0x644]);
      BackCodec(x, data[0x644..0x680], data[0x680..0x880], data[0x880..0xC84], data[0xC84..0x1000]);
      assert data == data[..0x644] + data[0x644..];
      SameHalves(data[..0x644], data[0x644..], x.MarshalFront(), x.MarshalBack());
    }
  }

  /** The offsets of a signature and of a public key: numbers in 72 bytes each. */
  lemma KeyLayout(sig: Signature, key: PublicKey)
    requires sig.Ok() && key.Ok()
    ensures var s, k := sig.Marshal(), key.Marshal();
            && |s| == 0x200 && s[0x00..0x48] == sig.r && s[0x48..0x90] == sig.s
            && |k| == 0x404 && k[0x00..0x04] == LE(4, key.curveID) && k[0x04..0x4C] == key.qx
            && k[0x4C..0x94] == key.qy
  {
    var k := key.Marshal();
    SignatureCodec(sig, sig.Marshal());
    PublicKeyCodec(key, k);
    Widths();
    DecodeLE(k[0x00..0x04]);
  }

  /** The offsets of the ID authentication block. */
  lemma AuthenticationLayout(x: Authentication)
    requires x.Ok()
    ensures var data := x.Marshal();
            && |data| == 0x1000
            && data[0x00..0x04] == LE(4, x.idKeyAlgo) && data[0x04..0x08] == LE(4, x.authKeyAlgo)
            && data[0x40..0x240] == x.idBlockSig.Marshal() && data[0x240..0x644] == x.idKey.Marshal()
            && data[0x680..0x880] == x.idKeySig.Marshal() && data[0x880..0xC84] == x.authKey.Marshal()
  {
    var data := x.Marshal();
    AuthenticationCodec(x, data);
    Widths();
    DecodeLE(data[0x00..0x04]);
    DecodeLE(data[0x04..0x08]);
    SignatureCodec(x.idBlockSig, data[0x40..0x240]);
    PublicKeyCodec(x.idKey, data[0x240..0x644]);
    SignatureCodec(x.idKeySig, data[0x680..0x880]);
    PublicKeyCodec(x.authKey, data[0x880..0xC84]);
  }

  // ---- The objects ----

  class IDBlock {
    var value: Block

    constructor (value: Block)
      ensures this.value == value
    {
      this.value := value;
    }

    method MarshalBinary() returns (data: seq<byte>)
      ensures data == value.Marshal() && UnmarshalBlock(data) == Some(value)
    {
      BlockCodec(value, value.Marshal());
      data := value.Marshal();
    }

    /** Fills the receiver; data of the wrong size leaves it alone. */
    method UnmarshalBinary(data: seq<byte>) returns (ok: bool)
      modifies this
      ensures ok <==> |data| == 0x60
      ensures ok ==> value.Marshal() == data
      ensures !ok ==> value == old(value)
    {
      var block := UnmarshalBlock(data);
      if block.None? {
        return false;
      }
      BlockCodec(block.value, data);
      value := block.value;
      return true;
    }
  }

  class IDAuthentication {
    var value: Authentication

    constructor (value: Authentication)
      ensures this.value == value
    {
      this.value := value;
    }

    method MarshalBinary() returns (data: seq<byte>)
      requires value.Ok()
      ensures data == value.Marshal() && UnmarshalAuthentication(data) == Some(value)
    {
      AuthenticationCodec(value, value.Marshal());
      data := value.Marshal();
    }

    method UnmarshalBinary(data: seq<byte>) returns (ok: bool)
      modifies this
      ensures ok <==> |data| == 0x1000
      ensures ok ==> value.Ok() && value.Marshal() == data
      ensures !ok ==> value == old(value)
    {
      var auth := UnmarshalAuthentication(data);
      if auth.None? {
        return false;
      }
      AuthenticationCodec(auth.value, data);
      value := auth.value;
      return true;
    }
  }
}

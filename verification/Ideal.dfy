/** Symbolic octet strings.
  *
  * The model idealises the cryptography the Coordinator builds on: digests are injective and
  * never all-zero, and a signature verifies for one key and one message only. Instead of
  * postulating this, octets are terms: an octet is either a plain byte or one position of the
  * output of a cryptographic operation, which remembers what it was computed from. Lengths,
  * concatenation and slicing are those of ordinary byte strings.
  */
module Ideal {

  datatype Option<+T> = None | Some(value: T)

  type byte = x: int | 0 <= x < 256

  datatype Algorithm = Sha256 | Sha384

  /** A key pair, named by what determines it: the transaction signing key is derived from the
      seed and the salt, a workload owner key is given by its encoded public half. */
  datatype Key = TransactionKey(seed: Bytes, salt: Bytes) | OwnerKey(der: Bytes)

  datatype Octet =
    | Raw(b: byte)
    | DigestOctet(algorithm: Algorithm, data: seq<Octet>, at: int)
    | HexOctet(of: Octet, high: bool)
    | SignatureOctet(signer: Key, message: seq<Octet>, nonce: nat)

  type Bytes = seq<Octet>

  /** A SHA-256 digest, or the all-zero value that stands for "no transition". */
  type Hash = h: Bytes | |h| == 32 witness seq(32, i => Raw(0))

  function ZeroHash(): (r: Hash) {
    seq(32, i => Raw(0))
  }

  function Digest(data: Bytes): (r: Hash) {
    seq(32, i => DigestOctet(Sha256, data, i))
  }

  /** Digests are injective, and an equation between digests opens both sides. */
  lemma DigestInjective(a: Bytes, b: Bytes)
    requires Digest(a) == Digest(b)
    ensures a == b
  {
    assert Digest(a)[0] == Digest(b)[0];
  }

  lemma DigestNotZero(a: Bytes)
    ensures Digest(a) != ZeroHash()
  {
    assert Digest(a)[0] != ZeroHash()[0];
  }

  function HexEncode(data: Bytes): (r: Bytes) {
    seq(2 * |data|, i requires 0 <= i < 2 * |data| => HexOctet(data[i / 2], i % 2 == 0))
  }

  lemma HexInjective(a: Bytes, b: Bytes)
    requires HexEncode(a) == HexEncode(b)
    ensures a == b
  {
    assert |HexEncode(a)| == 2 * |a| && |HexEncode(b)| == 2 * |b|;
    forall i | 0 <= i < |a|
      ensures a[i] == b[i]
    {
      assert HexEncode(a)[2 * i] == HexEncode(b)[2 * i];
    }
  }

  /** Signing is randomised: the nonce distinguishes repeated signatures of one message. */
  function Sign(key: Key, message: Bytes, nonce: nat): (r: Bytes) {
    [SignatureOctet(key, message, nonce)]
  }

  predicate Verify(key: Key, message: Bytes, signature: Bytes) {
    |signature| == 1 && signature[0].SignatureOctet? && signature[0].signer == key && signature[0].message == message
  }

  lemma SignatureBinds(k1: Key, m1: Bytes, k2: Key, m2: Bytes, signature: Bytes)
    requires Verify(k1, m1, signature) && Verify(k2, m2, signature)
    ensures k1 == k2 && m1 == m2
  {
  }
}

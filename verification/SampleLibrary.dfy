/** A library that obeys the laws assumed for the transit engine: ciphertexts spell out key and associated
  * data.
  */
module SampleLibrary {
  import opened Ideal
  import opened Protocol
  import opened Sequences
  import opened Transit

  /** A byte string whose end can be seen. */
  function Framed(b: seq<byte>): (f: seq<byte>) {
    if b == [] then [0] else [1, b[0]] + Framed(b[1..])
  }

  lemma {:induction false} FramedParts(a: seq<byte>, x: seq<byte>, b: seq<byte>, y: seq<byte>)
    requires Framed(a) + x == Framed(b) + y
    ensures a == b && x == y
  {
    var s, t := Framed(a) + x, Framed(b) + y;
    assert s[0] == Framed(a)[0] && t[0] == Framed(b)[0];
    if a == [] {
      assert x == s[1..] && y == t[1..];
    } else {
      assert s[1] == a[0] && t[1] == b[0];
      assert s[2..] == Framed(a[1..]) + x && t[2..] == Framed(b[1..]) + y;
      FramedParts(a[1..], x, b[1..], y);
      assert a == [a[0]] + a[1..] && b == [b[0]] + b[1..];
    }
  }

  function Label(key: seq<byte>, ad: seq<byte>): (r: seq<byte>) {
    Framed(key) + Framed(ad)
  }

  function Seal(key: seq<byte>, nonce: seq<byte>, plaintext: seq<byte>, ad: seq<byte>): (ciphertext: seq<byte>) {
    Label(key, ad) + plaintext
  }

  function Open(key: seq<byte>, nonce: seq<byte>, ciphertext: seq<byte>, ad: seq<byte>)
    : (plaintext: Option<seq<byte>>)
  {
    if Label(key, ad) <= ciphertext then Some(ciphertext[|Label(key, ad)|..]) else None
  }

  /** One input has a key of its own. */
  function Derive(special: string, info: string): (key: seq<byte>) {
    seq(KEY_SIZE, _ => if info == special then 1 else 0)
  }

  function Sample(special: string): (lib: Library) {
    Library((_, info) => Derive(special, info), Seal, Open)
  }

  lemma SealOpen(key: seq<byte>, nonce: seq<byte>, ciphertext: seq<byte>, ad: seq<byte>, plaintext: seq<byte>)
    ensures Open(key, nonce, ciphertext, ad) == Some(plaintext) <==> ciphertext == Seal(key, nonce, plaintext, ad)
  {
    var front := Label(key, ad);
    if front <= ciphertext {
      assert ciphertext == front + ciphertext[|front|..];
      SameHalves(front, ciphertext[|front|..], front, plaintext);
    }
  }

  lemma SealBinds(key: seq<byte>, ad: seq<byte>, plaintext: seq<byte>, key': seq<byte>, ad': seq<byte>,
                  plaintext': seq<byte>)
    requires Label(key, ad) + plaintext == Label(key', ad') + plaintext'
    ensures key == key' && ad == ad' && plaintext == plaintext'
  {
    Associative(Framed(key), Framed(ad), plaintext);
    Associative(Framed(key'), Framed(ad'), plaintext');
    FramedParts(key, Framed(ad) + plaintext, key', Framed(ad') + plaintext');
    FramedParts(ad, plaintext, ad', plaintext');
  }

  lemma SampleSeals(special: string)
    ensures AeadLaw(Sample(special)) && KeyAndDataBound(Sample(special))
  {
    var lib := Sample(special);
    forall key, nonce, ciphertext, ad, plaintext
      ensures lib.open(key, nonce, ciphertext, ad) == Some(plaintext) <==>
                ciphertext == lib.seal(key, nonce, plaintext, ad)
    {
      SealOpen(key, nonce, ciphertext, ad, plaintext);
    }
    forall key, key', nonce, plaintext, plaintext', ad, ad'
      | lib.seal(key, nonce, plaintext, ad) == lib.seal(key', nonce, plaintext', ad')
      ensures key == key' && ad == ad'
    {
      SealBinds(key, ad, plaintext, key', ad', plaintext');
    }
  }

  /** The laws are consistent, for any two derivation inputs. */
  lemma LawsAreConsistent(seeds: Seeds, info: string, info': string)
    ensures AeadLaw(Sample(info)) && KeyAndDataBound(Sample(info))
    ensures DistinctKeys(Sample(info), seeds, {info, info'})
    ensures KeyFrom(Sample(info), seeds, info).Some? && KeyFrom(Sample(info), seeds, info').Some?
  {
    SampleSeals(info);
    var lib := Sample(info);
    assert KeyFrom(lib, seeds, info).value[0] == 1;
    if info' != info {
      assert KeyFrom(lib, seeds, info').value[0] == 0;
    }
  }
}

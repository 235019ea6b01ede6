/** The transit engine: ciphertexts in their printed form, and encryption of workload data under keys
  * that all Coordinators of a deployment derive alike.
  */
module Transit {
  import opened Ideal
  import opened Protocol
  import opened ProtocolTheorems
  import opened Base64

  const NONCE_SIZE: nat := 12

  type Word32 = v: nat | v < 0x1_0000_0000

  datatype Container = Container(nonce: seq<byte>, ciphertext: seq<byte>, keyVersion: Word32)

  datatype ParseError = InvalidFormat | BadVersion | BadBase64 | TooShort

  datatype Result<+T, +E> = Ok(value: T) | Err(error: E)

  // ---- Printed form ----

  /** The text before the first occurrence of a character, and the text behind it. */
  function Cut(s: string, c: char): (r: Option<(string, string)>) {
    if s == "" then None
    else if s[0] == c then Some(("", s[1..]))
    else
      match Cut(s[1..], c)
      case None => None
      case Some((before, behind)) => Some(([s[0]] + before, behind))
  }

  /** At most three parts; later separators belong to the third. */
  function SplitThree(s: string): (r: Option<(string, string, string)>) {
    match Cut(s, ':')
    case None => None
    case Some((first, rest)) =>
      match Cut(rest, ':')
      case None => None
      case Some((second, third)) => Some((first, second, third))
  }

  /** A `v` and a decimal number of 32 bits; leading zeros are fine. */
  function ExtractVersion(s: string): (r: Option<Word32>) {
    if |s| < 2 || s[0] != 'v' || !AllDigits(s[1..]) then None
    else if Number(s[1..]) >= 0x1_0000_0000 then None
    else Some(Number(s[1..]))
  }

  function Marshal(c: Container): (r: string) {
    "vault:v" + (Print(c.keyVersion) + (":" + Encode(c.nonce + c.ciphertext)))
  }

  /** What is before the first separator is not looked at. */
  function Unmarshal(s: string): (r: Result<Container, ParseError>) {
    match SplitThree(s)
    case None => Err(InvalidFormat)
    case Some((_, second, third)) =>
      match ExtractVersion(second)
      case None => Err(BadVersion)
      case Some(version) =>
        match Decode(third)
        case None => Err(BadBase64)
        case Some(full) =>
          if |full| < NONCE_SIZE then Err(TooShort)
          else Ok(Container(full[..NONCE_SIZE], full[NONCE_SIZE..], version))
  }

  predicate Without(s: string, c: char) {
    forall i :: 0 <= i < |s| ==> s[i] != c
  }

  lemma {:induction false} CutAt(before: string, c: char, behind: string)
    requires Without(before, c)
    ensures Cut(before + ([c] + behind), c) == Some((before, behind))
  {
    var s := before + ([c] + behind);
    if before == "" {
      assert s == [c] + behind && s[1..] == behind;
    } else {
      CutAt(before[1..], c, behind);
      assert s[1..] == before[1..] + ([c] + behind) && s[0] == before[0];
      assert before == [before[0]] + before[1..];
    }
  }

  lemma {:induction false} CutParts(s: string, c: char)
    requires Cut(s, c).Some?
    ensures var (before, behind) := Cut(s, c).value; Without(before, c) && s == before + ([c] + behind)
  {
    if s[0] != c {
      CutParts(s[1..], c);
      assert s == [s[0]] + s[1..];
    }
  }

  lemma SplitAt(first: string, second: string, third: string)
    requires Without(first, ':') && Without(second, ':')
    ensures SplitThree(first + (":" + (second + (":" + third)))) == Some((first, second, third))
  {
    CutAt(first, ':', second + (":" + third));
    CutAt(second, ':', third);
  }

  /** The three parts, and that the text consists of them. */
  lemma SplitParts(s: string)
    requires SplitThree(s).Some?
    ensures var (first, second, third) := SplitThree(s).value;
            Without(first, ':') && Without(second, ':') && s == first + (":" + (second + (":" + third)))
  {
    CutParts(s, ':');
    CutParts(Cut(s, ':').value.1, ':');
  }

  lemma VersionRoundTrip(version: Word32)
    ensures ExtractVersion("v" + Print(version)) == Some(version)
    ensures Without("v" + Print(version), ':')
  {
    PrintRoundTrip(version);
    assert ("v" + Print(version))[1..] == Print(version);
  }

  lemma PrintedParts(c: Container)
    ensures Marshal(c) == "vault" + (":" + (("v" + Print(c.keyVersion)) + (":" + Encode(c.nonce + c.ciphertext))))
  {
    var rest := ":" + Encode(c.nonce + c.ciphertext);
    assert "vault:v" == "vault" + (":" + "v");
  }

  /** Unmarshalling the printed form gives back the container: every version, every nonce of twelve
      bytes, every ciphertext. */
  lemma UnmarshalMarshal(c: Container)
    requires |c.nonce| == NONCE_SIZE
    ensures Unmarshal(Marshal(c)) == Ok(c)
  {
    var full := c.nonce + c.ciphertext;
    PrintedParts(c);
    VersionRoundTrip(c.keyVersion);
    SplitAt("vault", "v" + Print(c.keyVersion), Encode(full));
    RoundTrip(full);
    assert full[..NONCE_SIZE] == c.nonce && full[NONCE_SIZE..] == c.ciphertext;
  }

  /** For other nonces the boundary between nonce and ciphertext is lost: what comes back is the same
      bytes, cut after twelve. */
  lemma UnmarshalMarshalAny(c: Container)
    ensures Unmarshal(Marshal(c)) == Ok(c) <==> |c.nonce| == NONCE_SIZE
  {
    if |c.nonce| == NONCE_SIZE {
      UnmarshalMarshal(c);
    } else if Unmarshal(Marshal(c)).Ok? {
      assert |Unmarshal(Marshal(c)).value.nonce| == NONCE_SIZE;
    }
  }

  /** Something without a separator, the version behind a `v` with any number of zeros in front, and base64 of at
      least twelve bytes. */
  ghost predicate FormOf(s: string, c: Container, first: string, noughts: nat, third: string) {
    && Without(first, ':')
    && s == first + (":" + (("v" + (Noughts(noughts) + Print(c.keyVersion))) + (":" + third)))
    && |c.nonce| == NONCE_SIZE && Decode(third) == Some(c.nonce + c.ciphertext)
  }

  /** Exactly the texts of this form are accepted. */
  lemma AcceptedForms(s: string, c: Container)
    ensures Unmarshal(s) == Ok(c) <==> exists first, noughts, third :: FormOf(s, c, first, noughts, third)
  {
    if Unmarshal(s) == Ok(c) {
      SplitParts(s);
      var (first, second, third) := SplitThree(s).value;
      assert second == "v" + second[1..];
      var full := Decode(third).value;
      assert full == full[..NONCE_SIZE] + full[NONCE_SIZE..];
      NumberExactly(second[1..], c.keyVersion);
      var noughts :| second[1..] == Noughts(noughts) + Print(c.keyVersion);
      assert FormOf(s, c, first, noughts, third);
    }
    if first, noughts, third :| FormOf(s, c, first, noughts, third) {
      var digits := Noughts(noughts) + Print(c.keyVersion);
      NumberExactly(digits, c.keyVersion);
      SplitAt(first, "v" + digits, third);
      assert ("v" + digits)[1..] == digits;
      var full := c.nonce + c.ciphertext;
      assert full[..NONCE_SIZE] == c.nonce && full[NONCE_SIZE..] == c.ciphertext;
    }
  }

  class CiphertextContainer {
    var value: Container

    constructor (value: Container)
      ensures this.value == value
    {
      this.value := value;
    }

    method MarshalJSON() returns (text: string)
      ensures text == Marshal(value)
    {
      var encoded := Encode(value.nonce + value.ciphertext);
      text := "vault:v" + (Print(value.keyVersion) + (":" + encoded));
    }

    /** Fills the receiver. The version is stored before the rest has been looked at. */
    method UnmarshalJSON(encoded: string) returns (r: Result<(), ParseError>)
      modifies this
      ensures r.Ok? <==> Unmarshal(encoded).Ok?
      ensures r.Ok? ==> value == Unmarshal(encoded).value
      ensures r.Err? ==> r.error == Unmarshal(encoded).error
      ensures r.Err? ==> value.nonce == old(value.nonce) && value.ciphertext == old(value.ciphertext)
      ensures r.Err? ==> value.keyVersion == if r.error.InvalidFormat? || r.error.BadVersion? then old(value.keyVersion)
                                             else ExtractVersion(SplitThree(encoded).value.1).value
    {
      var parts := SplitThree(encoded);
      if parts.None? {
        return Err(InvalidFormat);
      }
      var version := ExtractVersion(parts.value.1);
      if version.None? {
        return Err(BadVersion);
      }
      value := value.(keyVersion := version.value);
      var fullCiphertext := Decode(parts.value.2);
      if fullCiphertext.None? {
        return Err(BadBase64);
      }
      if |fullCiphertext.value| < NONCE_SIZE {
        return Err(TooShort);
      }
      value := value.(nonce := fullCiphertext.value[..NONCE_SIZE], ciphertext := fullCiphertext.value[NONCE_SIZE..]);
      return Ok(());
    }
  }

  // ---- Keys ----

  /** What a key is derived from, besides seed and salt. */
  function DerivationInfo(keyVersion: Word32, name: string): (r: string) {
    "TRANSIT ENGINE KEY: " + (Print(keyVersion) + (" " + name))
  }

  /** Different versions or names: different derivation inputs, whatever characters a name has. */
  lemma DerivationInfoInjective(v1: Word32, name1: string, v2: Word32, name2: string)
    requires DerivationInfo(v1, name1) == DerivationInfo(v2, name2)
    ensures v1 == v2 && name1 == name2
  {
    var prefix := "TRANSIT ENGINE KEY: ";
    var r1, r2 := Print(v1) + (" " + name1), Print(v2) + (" " + name2);
    assert r1 == (prefix + r1)[|prefix|..] && r2 == (prefix + r2)[|prefix|..];
    CutAt(Print(v1), ' ', name1);
    CutAt(Print(v2), ' ', name2);
    PrintRoundTrip(v1);
    PrintRoundTrip(v2);
  }

  /** Key derivation and authenticated encryption of the libraries. */
  datatype Library = Library(
    derive: (Seeds, string) -> seq<byte>,
    seal: (seq<byte>, seq<byte>, seq<byte>, seq<byte>) -> seq<byte>,
    open: (seq<byte>, seq<byte>, seq<byte>, seq<byte>) -> Option<seq<byte>>)

  /** Under one key and nonce, a ciphertext opens to a plaintext exactly if it is that plaintext's
      ciphertext, with the same associated data. */
  ghost predicate AeadLaw(lib: Library) {
    forall key, nonce, ciphertext, ad, plaintext ::
      lib.open(key, nonce, ciphertext, ad) == Some(plaintext) <==> ciphertext == lib.seal(key, nonce, plaintext, ad)
  }

  /** A ciphertext shows its key and its associated data: no other key and no other data give it. */
  ghost predicate KeyAndDataBound(lib: Library) {
    forall key, key', nonce, plaintext, plaintext', ad, ad' ::
      lib.seal(key, nonce, plaintext, ad) == lib.seal(key', nonce, plaintext', ad') ==> key == key' && ad == ad'
  }

  const KEY_SIZE: nat := 32

  function KeyFrom(lib: Library, seeds: Seeds, info: string): (key: Option<seq<byte>>) {
    if |lib.derive(seeds, info)| < KEY_SIZE then None else Some(lib.derive(seeds, info)[..KEY_SIZE])
  }

  /** The keys derived from these inputs do not collide. */
  ghost predicate DistinctKeys(lib: Library, seeds: Seeds, infos: set<string>) {
    forall i, j :: i in infos && j in infos && KeyFrom(lib, seeds, i).Some? ==>
                     KeyFrom(lib, seeds, i) == KeyFrom(lib, seeds, j) ==> i == j
  }

  datatype HandlerError = InvalidURL | NoKey | Undecryptable

  function DeriveEncryptionKey(lib: Library, s: State, keyVersion: Word32, name: string): (key: Option<seq<byte>>) {
    if name == "" then None else KeyFrom(lib, s.seeds, DerivationInfo(keyVersion, name))
  }

  /** The encrypt handler, behind authorization; the nonce is drawn at random. */
  function EncryptHandler(lib: Library, s: Option<State>, name: string, keyVersion: Word32, plaintext: seq<byte>,
                          ad: seq<byte>, nonce: seq<byte>): (r: Result<string, HandlerError>)
  {
    if name == "" then Err(InvalidURL)
    else if s.None? || DeriveEncryptionKey(lib, s.value, keyVersion, name).None? then Err(NoKey)
    else
      var key := DeriveEncryptionKey(lib, s.value, keyVersion, name).value;
      Ok(Marshal(Container(nonce, lib.seal(key, nonce, plaintext, ad), keyVersion)))
  }

  /** The decrypt handler: the key version is the ciphertext's. */
  function DecryptHandler(lib: Library, s: Option<State>, name: string, ciphertext: string, ad: seq<byte>)
    : (r: Result<seq<byte>, HandlerError>)
  {
    if name == "" then Err(InvalidURL)
    else
      match Unmarshal(ciphertext)
      case Err(_) => Err(InvalidURL)
      case Ok(c) =>
        if s.None? || DeriveEncryptionKey(lib, s.value, c.keyVersion, name).None? then Err(NoKey)
        else
          match lib.open(DeriveEncryptionKey(lib, s.value, c.keyVersion, name).value, c.nonce, c.ciphertext, ad)
          case None => Err(Undecryptable)
          case Some(plaintext) => Ok(plaintext)
  }

  /** The first 32 bytes of what is derived for this version and name, if there are as many. */
  ghost predicate IsKey(lib: Library, seeds: Seeds, keyVersion: Word32, name: string, key: seq<byte>) {
    var derived := lib.derive(seeds, "TRANSIT ENGINE KEY: " + (Print(keyVersion) + (" " + name)));
    |key| == 32 && 32 <= |derived| && derived[..32] == key
  }

  lemma KeyExactly(lib: Library, s: State, keyVersion: Word32, name: string, key: seq<byte>)
    ensures DeriveEncryptionKey(lib, s, keyVersion, name) == Some(key) <==>
              name != "" && IsKey(lib, s.seeds, keyVersion, name, key)
  {
  }

  /** Encryption succeeds exactly with a name, a state, and a key that can be derived; and the text that comes out
      is the printed form of version, nonce and what is sealed under that key. */
  lemma EncryptsExactly(lib: Library, s: Option<State>, name: string, keyVersion: Word32, plaintext: seq<byte>,
                        ad: seq<byte>, nonce: seq<byte>)
    requires |nonce| == NONCE_SIZE
    ensures var r := EncryptHandler(lib, s, name, keyVersion, plaintext, ad, nonce);
            && (r.Ok? <==> name != "" && s.Some? && exists key :: IsKey(lib, s.value.seeds, keyVersion, name, key))
            && (r == Err(InvalidURL) <==> name == "")
            && (r.Err? && name != "" ==> r == Err(NoKey))
            && (r.Ok? ==>
                && Unmarshal(r.value).Ok?
                && var c := Unmarshal(r.value).value;
                && c.keyVersion == keyVersion && c.nonce == nonce
                && exists key :: && IsKey(lib, s.value.seeds, keyVersion, name, key)
                                 && c.ciphertext == lib.seal(key, nonce, plaintext, ad))
  {
    if name != "" && s.Some? {
      if key :| IsKey(lib, s.value.seeds, keyVersion, name, key) {
        KeyExactly(lib, s.value, keyVersion, name, key);
      }
      if DeriveEncryptionKey(lib, s.value, keyVersion, name).Some? {
        var key := DeriveEncryptionKey(lib, s.value, keyVersion, name).value;
        KeyExactly(lib, s.value, keyVersion, name, key);
        UnmarshalMarshal(Container(nonce, lib.seal(key, nonce, plaintext, ad), keyVersion));
      }
    }
  }

  /** Decryption yields a plaintext exactly for a text of the accepted form that carries what sealing that plaintext
      gives, under the key for the version in the text and the name of the request. */
  lemma DecryptsExactly(lib: Library, s: Option<State>, name: string, text: string, ad: seq<byte>,
                        plaintext: seq<byte>)
    requires AeadLaw(lib)
    ensures DecryptHandler(lib, s, name, text, ad) == Ok(plaintext) <==>
              && name != "" && s.Some? && Unmarshal(text).Ok?
              && var c := Unmarshal(text).value;
              exists key :: IsKey(lib, s.value.seeds, c.keyVersion, name, key)
                            && c.ciphertext == lib.seal(key, c.nonce, plaintext, ad)
  {
    if name != "" && s.Some? && Unmarshal(text).Ok? {
      var c := Unmarshal(text).value;
      if key :| IsKey(lib, s.value.seeds, c.keyVersion, name, key)
                && c.ciphertext == lib.seal(key, c.nonce, plaintext, ad) {
        KeyExactly(lib, s.value, c.keyVersion, name, key);
        Opened(lib, s.value, name, text, c, ad, key, plaintext);
      }
      if DecryptHandler(lib, s, name, text, ad) == Ok(plaintext) {
        var key := DeriveEncryptionKey(lib, s.value, c.keyVersion, name).value;
        KeyExactly(lib, s.value, c.keyVersion, name, key);
      }
    }
  }

  lemma DecryptWithSameSeeds(lib: Library, s: State, s': State, name: string, keyVersion: Word32, plaintext: seq<byte>,
                             ad: seq<byte>, nonce: seq<byte>)
    requires AeadLaw(lib) && |nonce| == NONCE_SIZE && s.seeds == s'.seeds
    requires EncryptHandler(lib, Some(s), name, keyVersion, plaintext, ad, nonce).Ok?
    ensures DecryptHandler(lib, Some(s'), name,
                           EncryptHandler(lib, Some(s), name, keyVersion, plaintext, ad, nonce).value, ad)
         == Ok(plaintext)
  {
    var key := DeriveEncryptionKey(lib, s, keyVersion, name).value;
    var c := Container(nonce, lib.seal(key, nonce, plaintext, ad), keyVersion);
    UnmarshalMarshal(c);
    SameKey(lib, s, s', keyVersion, name);
    Opened(lib, s', name, Marshal(c), c, ad, key, plaintext);
  }

  lemma SameKey(lib: Library, s: State, s': State, keyVersion: Word32, name: string)
    requires s.seeds == s'.seeds
    ensures DeriveEncryptionKey(lib, s, keyVersion, name) == DeriveEncryptionKey(lib, s', keyVersion, name)
  {
  }

  lemma Opened(lib: Library, s: State, name: string, text: string, c: Container, ad: seq<byte>, key: seq<byte>,
               plaintext: seq<byte>)
    requires AeadLaw(lib) && name != "" && Unmarshal(text) == Ok(c)
    requires DeriveEncryptionKey(lib, s, c.keyVersion, name) == Some(key)
    requires c.ciphertext == lib.seal(key, c.nonce, plaintext, ad)
    ensures DecryptHandler(lib, Some(s), name, text, ad) == Ok(plaintext)
  {
    assert lib.open(key, c.nonce, c.ciphertext, ad) == Some(plaintext);
  }

  /** What one Coordinator encrypts, every Coordinator of the deployment decrypts, also after later
      updates and recoveries: under the same name and associated data the plaintext comes back. */
  lemma DecryptAfterEncrypt(lib: Library, events: seq<Event>, more: seq<Event>, a: Addr, b: Addr, name: string,
                            keyVersion: Word32, plaintext: seq<byte>, ad: seq<byte>, nonce: seq<byte>)
    requires AeadLaw(lib) && |nonce| == NONCE_SIZE
    requires a < |Exec(events).objs| && b < |Exec(events + more).objs|
    requires EncryptHandler(lib, Some(Exec(events).objs[a]), name, keyVersion, plaintext, ad, nonce).Ok?
    ensures DecryptHandler(lib, Some(Exec(events + more).objs[b]), name,
                           EncryptHandler(lib, Some(Exec(events).objs[a]), name, keyVersion, plaintext, ad,
                                          nonce).value, ad)
         == Ok(plaintext)
  {
    SeedAgreement(events, a);
    SeedAgreement(events + more, b);
    FirstRecordIsFixed(events, more);
    DecryptWithSameSeeds(lib, Exec(events).objs[a], Exec(events + more).objs[b], name, keyVersion, plaintext, ad,
                         nonce);
  }

  /** What a sealed ciphertext opens to under a name, a version and associated data. */
  lemma OpenedAs(lib: Library, s: State, name: string, text: string, ad: seq<byte>)
    requires AeadLaw(lib) && DecryptHandler(lib, Some(s), name, text, ad).Ok?
    ensures name != "" && Unmarshal(text).Ok?
    ensures var c := Unmarshal(text).value;
            && KeyFrom(lib, s.seeds, DerivationInfo(c.keyVersion, name)).Some?
            && c.ciphertext == lib.seal(KeyFrom(lib, s.seeds, DerivationInfo(c.keyVersion, name)).value, c.nonce,
                                        DecryptHandler(lib, Some(s), name, text, ad).value, ad)
  {
  }

  lemma SameName(lib: Library, seeds: Seeds, v1: Word32, name1: string, v2: Word32, name2: string)
    requires DistinctKeys(lib, seeds, {DerivationInfo(v1, name1), DerivationInfo(v2, name2)})
    requires KeyFrom(lib, seeds, DerivationInfo(v1, name1)).Some?
    requires KeyFrom(lib, seeds, DerivationInfo(v1, name1)) == KeyFrom(lib, seeds, DerivationInfo(v2, name2))
    ensures v1 == v2 && name1 == name2
  {
    var i, j := DerivationInfo(v1, name1), DerivationInfo(v2, name2);
    assert i in {i, j} && j in {i, j};
    DerivationInfoInjective(v1, name1, v2, name2);
  }

  /** A ciphertext sealed for one name, version and associated data, printed with any version. */
  lemma OpensOnlyAsSealed(lib: Library, s: State, text: string, c: Container, key: seq<byte>, plaintext: seq<byte>,
                          name: string, keyVersion: Word32, ad: seq<byte>, name': string, ad': seq<byte>)
    requires AeadLaw(lib) && KeyAndDataBound(lib) && Unmarshal(text) == Ok(c) && name != ""
    requires DistinctKeys(lib, s.seeds, {DerivationInfo(keyVersion, name), DerivationInfo(c.keyVersion, name')})
    requires KeyFrom(lib, s.seeds, DerivationInfo(keyVersion, name)) == Some(key)
    requires c.ciphertext == lib.seal(key, c.nonce, plaintext, ad)
    ensures DecryptHandler(lib, Some(s), name', text, ad').Ok? <==>
              name' == name && c.keyVersion == keyVersion && ad' == ad
    ensures DecryptHandler(lib, Some(s), name', text, ad').Ok? ==>
              DecryptHandler(lib, Some(s), name', text, ad').value == plaintext
  {
    if name' == name && c.keyVersion == keyVersion && ad' == ad {
      Opened(lib, s, name, text, c, ad, key, plaintext);
    } else if DecryptHandler(lib, Some(s), name', text, ad').Ok? {
      OpenedAs(lib, s, name', text, ad');
      SameName(lib, s.seeds, keyVersion, name, c.keyVersion, name');
    }
  }

  lemma EncryptedText(lib: Library, s: State, name: string, keyVersion: Word32, plaintext: seq<byte>, ad: seq<byte>,
                      nonce: seq<byte>) returns (key: seq<byte>)
    requires |nonce| == NONCE_SIZE && EncryptHandler(lib, Some(s), name, keyVersion, plaintext, ad, nonce).Ok?
    ensures name != "" && KeyFrom(lib, s.seeds, DerivationInfo(keyVersion, name)) == Some(key)
    ensures Unmarshal(EncryptHandler(lib, Some(s), name, keyVersion, plaintext, ad, nonce).value)
         == Ok(Container(nonce, lib.seal(key, nonce, plaintext, ad), keyVersion))
  {
    key := DeriveEncryptionKey(lib, s, keyVersion, name).value;
    UnmarshalMarshal(Container(nonce, lib.seal(key, nonce, plaintext, ad), keyVersion));
  }

  lemma SeedsOfDeployment(events: seq<Event>, more: seq<Event>, a: Addr, b: Addr)
    requires a < |Exec(events).objs| && b < |Exec(events + more).objs|
    ensures Exec(events).objs[a].seeds == Exec(events + more).objs[b].seeds
  {
    SeedAgreement(events, a);
    SeedAgreement(events + more, b);
    FirstRecordIsFixed(events, more);
  }

  /** What one Coordinator encrypts, every Coordinator of the deployment decrypts for exactly the name and
      the associated data it was encrypted for, and refuses for all others. */
  lemma DecryptsExactlyAsEncrypted(lib: Library, events: seq<Event>, more: seq<Event>, a: Addr, b: Addr, name: string,
                                   keyVersion: Word32, plaintext: seq<byte>, ad: seq<byte>, nonce: seq<byte>,
                                   name': string, ad': seq<byte>)
    requires AeadLaw(lib) && KeyAndDataBound(lib) && |nonce| == NONCE_SIZE
    requires a < |Exec(events).objs| && b < |Exec(events + more).objs|
    requires DistinctKeys(lib, Exec(events).objs[a].seeds,
                          {DerivationInfo(keyVersion, name), DerivationInfo(keyVersion, name')})
    requires EncryptHandler(lib, Some(Exec(events).objs[a]), name, keyVersion, plaintext, ad, nonce).Ok?
    ensures var text := EncryptHandler(lib, Some(Exec(events).objs[a]), name, keyVersion, plaintext, ad, nonce).value;
            var answer := DecryptHandler(lib, Some(Exec(events + more).objs[b]), name', text, ad');
            && (answer.Ok? <==> name' == name && ad' == ad)
            && (answer.Ok? ==> answer.value == plaintext)
  {
    var s := Exec(events).objs[a];
    var text := EncryptHandler(lib, Some(s), name, keyVersion, plaintext, ad, nonce).value;
    var key := EncryptedText(lib, s, name, keyVersion, plaintext, ad, nonce);
    var c := Container(nonce, lib.seal(key, nonce, plaintext, ad), keyVersion);
    SeedsOfDeployment(events, more, a, b);
    OpensOnlyAsSealed(lib, Exec(events + more).objs[b], text, c, key, plaintext, name, keyVersion, ad, name', ad');
  }

  /** Printing another key version in front of a ciphertext makes it useless. */
  lemma OtherVersionIsRefused(lib: Library, s: State, name: string, keyVersion: Word32, plaintext: seq<byte>,
                              ad: seq<byte>, nonce: seq<byte>, keyVersion': Word32)
    requires AeadLaw(lib) && KeyAndDataBound(lib) && |nonce| == NONCE_SIZE
    requires DistinctKeys(lib, s.seeds, {DerivationInfo(keyVersion, name), DerivationInfo(keyVersion', name)})
    requires EncryptHandler(lib, Some(s), name, keyVersion, plaintext, ad, nonce).Ok?
    ensures var text := EncryptHandler(lib, Some(s), name, keyVersion, plaintext, ad, nonce).value;
            && Unmarshal(text).Ok?
            && var relabelled := Marshal(Unmarshal(text).value.(keyVersion := keyVersion'));
            DecryptHandler(lib, Some(s), name, relabelled, ad).Ok? <==> keyVersion' == keyVersion
  {
    var key := EncryptedText(lib, s, name, keyVersion, plaintext, ad, nonce);
    var c := Container(nonce, lib.seal(key, nonce, plaintext, ad), keyVersion');
    UnmarshalMarshal(c);
    OpensOnlyAsSealed(lib, s, Marshal(c), c, key, plaintext, name, keyVersion, ad, name, ad);
  }

  /** Whatever text is presented, no two names and no two associated data open it, on whatever Coordinators
      of the deployment; and it opens to one plaintext only. */
  lemma OneNamePerText(lib: Library, events: seq<Event>, more: seq<Event>, a: Addr, b: Addr, text: string, name: string,
                       ad: seq<byte>, name': string, ad': seq<byte>)
    requires AeadLaw(lib) && KeyAndDataBound(lib)
    requires a < |Exec(events).objs| && b < |Exec(events + more).objs|
    requires Unmarshal(text).Ok?
    requires var v := Unmarshal(text).value.keyVersion;
             DistinctKeys(lib, Exec(events).objs[a].seeds, {DerivationInfo(v, name), DerivationInfo(v, name')})
    requires DecryptHandler(lib, Some(Exec(events).objs[a]), name, text, ad).Ok?
    ensures var answer := DecryptHandler(lib, Some(Exec(events + more).objs[b]), name', text, ad');
            && (answer.Ok? <==> name' == name && ad' == ad)
            && (answer.Ok? ==> answer == DecryptHandler(lib, Some(Exec(events).objs[a]), name, text, ad))
  {
    var s, c := Exec(events).objs[a], Unmarshal(text).value;
    OpenedAs(lib, s, name, text, ad);
    SeedsOfDeployment(events, more, a, b);
    OpensOnlyAsSealed(lib, Exec(events + more).objs[b], text, c,
                      KeyFrom(lib, s.seeds, DerivationInfo(c.keyVersion, name)).value,
                      DecryptHandler(lib, Some(s), name, text, ad).value, name, c.keyVersion, ad, name', ad');
  }
}

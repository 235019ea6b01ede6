/** The launch digest of a confidential guest: a chain of hashes over its initial pages. */
module LaunchDigest {
  import opened Ideal
  import opened LittleEndian
  import opened Octets
  import opened Sequences
  import opened Ovmf
  import Vmsa
  import SevHashes

  const PAGE_INFO_LENGTH: nat := 0x70
  const VMSA_GPA: nat := 0xFFFF_FFFF_F000

  // Page types.
  const NORMAL: byte := 1
  const VMSA_PAGE: byte := 2
  const ZERO: byte := 3
  const SECRETS: byte := 5
  const CPUID: byte := 6

  /** A SHA-384 digest, or the all-zero value. */
  type LD = d: Bytes | |d| == 48 witness Zeros(48)

  type Address = a: nat | a < TWO_TO_64

  function ZeroLD(): (r: LD) {
    Zeros(48)
  }

  function Digest384(data: Bytes): (r: LD) {
    seq(48, i => DigestOctet(Sha384, data, i))
  }

  lemma Digest384Injective(a: Bytes, b: Bytes)
    requires Digest384(a) == Digest384(b)
    ensures a == b
  {
    assert Digest384(a)[0] == Digest384(b)[0];
  }

  lemma Digest384NotZero(a: Bytes)
    ensures Digest384(a) != ZeroLD()
  {
    assert Digest384(a)[0] != ZeroLD()[0];
  }

  /** One page that is added to the measurement. */
  datatype PageUpdate = PageUpdate(kind: byte, gpa: Address, contents: LD)

  /** The PAGE_INFO structure: digest so far, contents, length, page type, five zero bytes, address. */
  function PageInfo(ld: LD, u: PageUpdate): (r: Bytes)
    ensures |r| == PAGE_INFO_LENGTH
  {
    ld + u.contents + Plain(LE(2, PAGE_INFO_LENGTH)) + Plain([u.kind, 0, 0, 0, 0, 0]) + Plain(LE(8, u.gpa))
  }

  function Extended(ld: LD, u: PageUpdate): (r: LD) {
    Digest384(PageInfo(ld, u))
  }

  function Measure(seed: LD, updates: seq<PageUpdate>): (r: LD) {
    if updates == [] then seed
    else Extended(Measure(seed, updates[..|updates| - 1]), updates[|updates| - 1])
  }

  lemma {:induction false} MeasureAppend(seed: LD, us: seq<PageUpdate>, vs: seq<PageUpdate>)
    ensures Measure(seed, us + vs) == Measure(Measure(seed, us), vs)
  {
    if vs == [] {
      assert us + vs == us;
    } else {
      MeasureAppend(seed, us, vs[..|vs| - 1]);
      assert (us + vs)[..|us + vs| - 1] == us + vs[..|vs| - 1];
    }
  }

  // ---- What a digest pins down ----

  /** Where everything is in the PAGE_INFO structure. */
  lemma PageInfoParts(ld: LD, u: PageUpdate)
    ensures var r := PageInfo(ld, u);
            && r[..48] == ld && r[48..96] == u.contents && r[96..98] == Plain(LE(2, 0x70))
            && r[98] == Raw(u.kind) && (forall i :: 99 <= i < 104 ==> r[i] == Raw(0)) && r[104..] == Plain(LE(8, u.gpa))
  {
    var length, kind, gpa := Plain(LE(2, PAGE_INFO_LENGTH)), Plain([u.kind, 0, 0, 0, 0, 0]), Plain(LE(8, u.gpa));
    FiveParts(ld, u.contents, length, kind, gpa);
    forall i | 98 <= i < 104
      ensures PageInfo(ld, u)[i] == if i == 98 then Raw(u.kind) else Raw(0)
    {
      assert PageInfo(ld, u)[i] == PageInfo(ld, u)[98..104][i - 98] == kind[i - 98];
    }
  }

  lemma FiveParts(a: Bytes, b: Bytes, c: Bytes, d: Bytes, e: Bytes)
    requires |a| == 48 && |b| == 48 && |c| == 2 && |d| == 6 && |e| == 8
    ensures var r := a + b + c + d + e;
            r[..48] == a && r[48..96] == b && r[96..98] == c && r[98..104] == d && r[104..] == e
  {
    var r := a + b + c + d + e;
    assert forall i :: 0 <= i < 2 ==> r[96 + i] == c[i];
    assert forall i :: 0 <= i < 6 ==> r[98 + i] == d[i];
  }

  lemma ExtendedInjective(a: LD, u: PageUpdate, b: LD, v: PageUpdate)
    requires Extended(a, u) == Extended(b, v)
    ensures a == b && u == v
  {
    Digest384Injective(PageInfo(a, u), PageInfo(b, v));
    PageInfoParts(a, u);
    PageInfoParts(b, v);
    PlainInjective(LE(8, u.gpa), LE(8, v.gpa));
    Widths();
    EncodeLE(8, u.gpa);
    EncodeLE(8, v.gpa);
  }

  /** From the all-zero seed, one digest stands for one sequence of updates: as many of them, and
      the same page type, address and contents at each position. */
  lemma {:induction false} MeasurementBinds(us: seq<PageUpdate>, vs: seq<PageUpdate>)
    requires Measure(ZeroLD(), us) == Measure(ZeroLD(), vs)
    ensures us == vs
    decreases |us|
  {
    if us == [] || vs == [] {
      if us != vs {
        var ws := if us == [] then vs else us;
        Digest384NotZero(PageInfo(Measure(ZeroLD(), ws[..|ws| - 1]), ws[|ws| - 1]));
      }
    } else {
      var us', vs' := us[..|us| - 1], vs[..|vs| - 1];
      ExtendedInjective(Measure(ZeroLD(), us'), us[|us| - 1], Measure(ZeroLD(), vs'), vs[|vs| - 1]);
      MeasurementBinds(us', vs');
      assert us == us' + [us[|us| - 1]] && vs == vs' + [vs[|vs| - 1]];
    }
  }

  /** From any common seed, equally long sequences with equal digests are equal. */
  lemma {:induction false} ContinuationBinds(seed: LD, us: seq<PageUpdate>, vs: seq<PageUpdate>)
    requires |us| == |vs| && Measure(seed, us) == Measure(seed, vs)
    ensures us == vs
    decreases |us|
  {
    if us != [] {
      var us', vs' := us[..|us| - 1], vs[..|vs| - 1];
      ExtendedInjective(Measure(seed, us'), us[|us| - 1], Measure(seed, vs'), vs[|vs| - 1]);
      ContinuationBinds(seed, us', vs');
      assert us == us' + [us[|us| - 1]] && vs == vs' + [vs[|vs| - 1]];
    }
  }

  // ---- Runs of pages ----

  function PageAt(data: Bytes, i: nat): (r: Bytes)
    requires PAGE_SIZE * i + PAGE_SIZE <= |data|
  {
    data[PAGE_SIZE * i..PAGE_SIZE * i + PAGE_SIZE]
  }

  function NormalPages(start: Address, data: Bytes): (us: seq<PageUpdate>)
    requires |data| % PAGE_SIZE == 0
    ensures |us| == |data| / PAGE_SIZE
  {
    seq(|data| / PAGE_SIZE, i requires 0 <= i < |data| / PAGE_SIZE =>
      PageUpdate(NORMAL, (start + PAGE_SIZE * i) % TWO_TO_64, Digest384(PageAt(data, i))))
  }

  /** Pages whose contents do not count. A last page that is only begun is a page. */
  function BlankPages(kind: byte, start: Address, length: nat): (us: seq<PageUpdate>)
    ensures |us| == (length + PAGE_SIZE - 1) / PAGE_SIZE
  {
    seq((length + PAGE_SIZE - 1) / PAGE_SIZE, i requires 0 <= i < (length + PAGE_SIZE - 1) / PAGE_SIZE =>
      PageUpdate(kind, (start + PAGE_SIZE * i) % TWO_TO_64, ZeroLD()))
  }

  function VmsaUpdate(page: seq<byte>): (r: PageUpdate) {
    PageUpdate(VMSA_PAGE, VMSA_GPA, Digest384(Plain(page)))
  }

  lemma NormalPagesBind(start: Address, data1: Bytes, data2: Bytes)
    requires |data1| == |data2| && |data1| % PAGE_SIZE == 0
    requires NormalPages(start, data1) == NormalPages(start, data2)
    ensures data1 == data2
  {
    forall k | 0 <= k < |data1|
      ensures data1[k] == data2[k]
    {
      var i := k / PAGE_SIZE;
      assert NormalPages(start, data1)[i].contents == NormalPages(start, data2)[i].contents;
      Digest384Injective(PageAt(data1, i), PageAt(data2, i));
      assert data1[k] == PageAt(data1, i)[k - PAGE_SIZE * i] == PageAt(data2, i)[k - PAGE_SIZE * i] == data2[k];
    }
  }

  // ---- The digest object ----

  class GCTX {
    var ld: LD

    constructor ()
      ensures ld == ZeroLD()
    {
      ld := ZeroLD();
    }

    constructor WithSeed(seed: LD)
      ensures ld == seed
    {
      ld := seed;
    }

    method Update(pageType: byte, gpa: Address, contents: LD)
      modifies this
      ensures ld == Extended(old(ld), PageUpdate(pageType, gpa, contents))
    {
      var info := new Octet[PAGE_INFO_LENGTH](_ => Raw(0));
      ghost var front: Bytes := [];
      assert info[..] == front + Zeros(PAGE_INFO_LENGTH);
      CopyTo(info, 0, ld, front);
      assert [] + ld == ld;
      CopyTo(info, 48, contents, ld);
      front := ld + contents;
      CopyTo(info, 96, Plain(LE(2, PAGE_INFO_LENGTH)), front);
      front := front + Plain(LE(2, PAGE_INFO_LENGTH));
      CopyTo(info, 98, Plain([pageType, 0, 0, 0, 0, 0]), front);
      front := front + Plain([pageType, 0, 0, 0, 0, 0]);
      CopyTo(info, 104, Plain(LE(8, gpa)), front);
      assert info[..] == PageInfo(ld, PageUpdate(pageType, gpa, contents));
      ld := Digest384(info[..]);
    }

    /** The data must be page-aligned. */
    method UpdateNormalPages(startGPA: Address, data: Bytes)
      requires |data| % PAGE_SIZE == 0
      modifies this
      ensures ld == Measure(old(ld), NormalPages(startGPA, data))
    {
      ghost var us := NormalPages(startGPA, data);
      var offset := 0;
      ghost var n := 0;
      while offset < |data|
        invariant offset == PAGE_SIZE * n && n <= |us|
        invariant ld == Measure(old(ld), us[..n])
      {
        var page := data[offset..offset + PAGE_SIZE];
        Update(NORMAL, (startGPA + offset) % TWO_TO_64, Digest384(page));
        assert us[..n + 1][..n] == us[..n] && page == PageAt(data, n);
        offset, n := offset + PAGE_SIZE, n + 1;
      }
      assert us[..n] == us;
    }

    method UpdateVMSAPage(page: seq<byte>)
      modifies this
      ensures ld == Measure(old(ld), [VmsaUpdate(page)])
    {
      Update(VMSA_PAGE, VMSA_GPA, Digest384(Plain(page)));
      assert [VmsaUpdate(page)][..0] == [];
      assert Measure(old(ld), []) == old(ld);
    }

    method UpdateZeroPages(gpa: Address, lengthBytes: nat)
      modifies this
      ensures ld == Measure(old(ld), BlankPages(ZERO, gpa, lengthBytes))
    {
      ghost var us := BlankPages(ZERO, gpa, lengthBytes);
      var offset := 0;
      ghost var n := 0;
      while offset < lengthBytes
        invariant offset == PAGE_SIZE * n && n <= |us|
        invariant ld == Measure(old(ld), us[..n])
      {
        Update(ZERO, (gpa + offset) % TWO_TO_64, ZeroLD());
        assert us[..n + 1][..n] == us[..n];
        offset, n := offset + PAGE_SIZE, n + 1;
      }
      assert us[..n] == us;
    }
  }

  // ---- The guest ----

  datatype LaunchError =
    | BadFirmware
    | Misaligned
    | NoHashTable
    | HashSectionSize
    | UnknownSection
    | NoHashSection
    | NoResetAddress
    | BadCount

  datatype Result<+T> = Ok(value: T) | Err(error: LaunchError)

  const SEC_MEM: nat := 1
  const SECRETS_SECTION: nat := 2
  const CPUID_SECTION: nat := 3
  const SVSM_CAA: nat := 4
  const KERNEL_HASHES: nat := 0x10

  /** What one metadata section adds to the measurement. */
  function SectionUpdates(fw: Firmware, s: MetadataSection, hashes: Option<SevHashes.Hashes>)
    : (r: Result<seq<PageUpdate>>)
    requires SectionOk(s)
  {
    if s.kind == SEC_MEM || s.kind == SVSM_CAA then Ok(BlankPages(ZERO, s.gpa, s.size))
    else if s.kind == SECRETS_SECTION then Ok([PageUpdate(SECRETS, s.gpa, ZeroLD())])
    else if s.kind == CPUID_SECTION then Ok([PageUpdate(CPUID, s.gpa, ZeroLD())])
    else if s.kind != KERNEL_HASHES then Err(UnknownSection)
    else if hashes.None? then Ok(BlankPages(ZERO, s.gpa, s.size))
    else if SEVHashesTableGPA(fw).None? then Err(NoHashTable)
    else if s.size != PAGE_SIZE then Err(HashSectionSize)
    else Ok(NormalPages(s.gpa, SevHashes.PageOf(hashes.value, SEVHashesTableGPA(fw).value % PAGE_SIZE)))
  }

  predicate SectionsOk(sections: seq<MetadataSection>) {
    forall i :: 0 <= i < |sections| ==> SectionOk(sections[i])
  }

  /** Section after section, up to the first that fails. */
  function AllSectionUpdates(fw: Firmware, sections: seq<MetadataSection>, hashes: Option<SevHashes.Hashes>)
    : (r: Result<seq<PageUpdate>>)
    requires SectionsOk(sections)
  {
    if sections == [] then Ok([])
    else
      var n := |sections| - 1;
      match AllSectionUpdates(fw, sections[..n], hashes)
      case Err(error) => Err(error)
      case Ok(us) =>
        match SectionUpdates(fw, sections[n], hashes)
        case Err(error) => Err(error)
        case Ok(vs) => Ok(us + vs)
  }

  predicate HasSection(sections: seq<MetadataSection>, kind: nat) {
    exists i :: 0 <= i < |sections| && sections[i].kind == kind
  }

  function MetadataUpdates(fw: Firmware, hashes: Option<SevHashes.Hashes>): (r: Result<seq<PageUpdate>>)
    requires SectionsOk(fw.sections)
  {
    match AllSectionUpdates(fw, fw.sections, hashes)
    case Err(error) => Err(error)
    case Ok(us) => if hashes.Some? && !HasSection(fw.sections, KERNEL_HASHES) then Err(NoHashSection) else Ok(us)
  }

  /** One page per processor, the boot processor first. */
  ghost function VmsaUpdates(vcpus: nat, apEip: nat, sevFeatures: nat, vcpuSig: nat): (us: seq<PageUpdate>)
    ensures |us| == vcpus
  {
    seq(vcpus, i requires 0 <= i < vcpus =>
      VmsaUpdate(Vmsa.SaveArea(if i == 0 then Vmsa.BSP_EIP else apEip, sevFeatures, vcpuSig)))
  }

  datatype Guest = Guest(image: seq<byte>, vcpus: nat, vcpuSig: nat, boot: Option<SevHashes.Boot>, features: nat)

  /** What the source's parameter types guarantee. */
  ghost predicate GuestOk(g: Guest) {
    |g.image| < 0x8000_0000_0000_0000 && FooterFits(g.image) && Vmsa.Bits32(g.vcpuSig) && Vmsa.Bits64(g.features)
  }

  function HashesOf(boot: Option<SevHashes.Boot>): (r: Option<SevHashes.Hashes>) {
    if boot.None? then None else Some(SevHashes.HashesOf(boot.value))
  }

  /** Everything that is measured, in order: the image, its metadata sections, the processors. */
  ghost function LaunchUpdates(g: Guest): (r: Result<seq<PageUpdate>>)
    requires GuestOk(g)
  {
    match ParseFirmware(g.image)
    case None => Err(BadFirmware)
    case Some(fw) =>
      if |g.image| % PAGE_SIZE != 0 then Err(Misaligned)
      else
        match MetadataUpdates(fw, HashesOf(g.boot))
        case Err(error) => Err(error)
        case Ok(metadata) =>
          if SEVESResetEIP(fw).None? then Err(NoResetAddress)
          else
            Ok(NormalPages(ImageStart(g.image), Plain(g.image)) + metadata
               + VmsaUpdates(g.vcpus, SEVESResetEIP(fw).value, g.features, g.vcpuSig))
  }

  method UpdateSection(gctx: GCTX, o: OVMF, desc: MetadataSection, hashes: Option<SevHashes.Hashes>)
    returns (r: Result<()>)
    requires SectionOk(desc)
    modifies gctx
    ensures var us := SectionUpdates(Firmware(o.table, o.metadataItems), desc, hashes);
            if us.Ok? then r.Ok? && gctx.ld == Measure(old(gctx.ld), us.value) else r == Err(us.error)
  {
    if desc.kind == SEC_MEM {
      gctx.UpdateZeroPages(desc.gpa, desc.size);
    } else if desc.kind == SECRETS_SECTION {
      MeasureOne(gctx.ld, PageUpdate(SECRETS, desc.gpa, ZeroLD()));
      gctx.Update(SECRETS, desc.gpa, ZeroLD());
    } else if desc.kind == CPUID_SECTION {
      MeasureOne(gctx.ld, PageUpdate(CPUID, desc.gpa, ZeroLD()));
      gctx.Update(CPUID, desc.gpa, ZeroLD());
    } else if desc.kind == KERNEL_HASHES {
      if hashes.Some? {
        var hashGPA := SEVHashesTableGPA(Firmware(o.table, o.metadataItems));
        if hashGPA.None? {
          return Err(NoHashTable);
        }
        var page := SevHashes.ConstructPage(hashes.value, hashGPA.value % PAGE_SIZE);
        if desc.size != PAGE_SIZE {
          return Err(HashSectionSize);
        }
        gctx.UpdateNormalPages(desc.gpa, page);
      } else {
        gctx.UpdateZeroPages(desc.gpa, desc.size);
      }
    } else if desc.kind == SVSM_CAA {
      gctx.UpdateZeroPages(desc.gpa, desc.size);
    } else {
      return Err(UnknownSection);
    }
    return Ok(());
  }

  lemma MeasureOne(seed: LD, u: PageUpdate)
    ensures Measure(seed, [u]) == Extended(seed, u)
  {
    assert [u][..0] == [];
    assert Measure(seed, []) == seed;
  }

  method UpdateMetadataPages(gctx: GCTX, o: OVMF, hashes: Option<SevHashes.Hashes>) returns (r: Result<()>)
    requires SectionsOk(o.metadataItems)
    modifies gctx
    ensures var us := MetadataUpdates(Firmware(o.table, o.metadataItems), hashes);
            if us.Ok? then r.Ok? && gctx.ld == Measure(old(gctx.ld), us.value) else r == Err(us.error)
  {
    ghost var fw := Firmware(o.table, o.metadataItems);
    for i := 0 to |o.metadataItems|
      invariant var us := AllSectionUpdates(fw, fw.sections[..i], hashes);
                us.Ok? && gctx.ld == Measure(old(gctx.ld), us.value)
    {
      assert fw.sections[..i + 1][..i] == fw.sections[..i];
      ghost var us := AllSectionUpdates(fw, fw.sections[..i], hashes).value;
      r := UpdateSection(gctx, o, o.metadataItems[i], hashes);
      if r.Err? {
        FailedSection(fw, fw.sections, i, hashes);
        return Err(r.error);
      }
      MeasureAppend(old(gctx.ld), us, SectionUpdates(fw, fw.sections[i], hashes).value);
    }
    assert fw.sections[..|fw.sections|] == fw.sections;
    if hashes.Some? {
      var found := o.HasMetadataSection(KERNEL_HASHES);
      if !found {
        return Err(NoHashSection);
      }
    }
    return Ok(());
  }

  /** The first section that fails decides the error. */
  lemma {:induction false} FailedSection(fw: Firmware, sections: seq<MetadataSection>, i: nat,
                                         hashes: Option<SevHashes.Hashes>)
    requires SectionsOk(sections) && i < |sections|
    requires AllSectionUpdates(fw, sections[..i], hashes).Ok? && SectionUpdates(fw, sections[i], hashes).Err?
    ensures AllSectionUpdates(fw, sections, hashes) == Err(SectionUpdates(fw, sections[i], hashes).error)
    decreases |sections|
  {
    var n := |sections| - 1;
    if i < n {
      assert sections[..n][..i] == sections[..i];
      FailedSection(fw, sections[..n], i, hashes);
    }
  }

  method CalcSNPLaunchDigest(g: Guest) returns (r: Result<LD>)
    requires GuestOk(g)
    ensures var us := LaunchUpdates(g);
            r == if us.Ok? then Ok(Measure(ZeroLD(), us.value)) else Err(us.error)
  {
    var ovmf := NewOVMF(g.image);
    if ovmf == null {
      return Err(BadFirmware);
    }
    var gctx := new GCTX();
    if |ovmf.data| % PAGE_SIZE != 0 {
      return Err(Misaligned);
    }
    ghost var us := NormalPages(ImageStart(g.image), Plain(g.image));
    gctx.UpdateNormalPages(ovmf.gpa, Plain(ovmf.data));
    ghost var fw := ParseFirmware(g.image).value;
    var updated := UpdateMetadataPages(gctx, ovmf, HashesOf(g.boot));
    if updated.Err? {
      return Err(updated.error);
    }
    ghost var vs := MetadataUpdates(fw, HashesOf(g.boot)).value;
    MeasureAppend(ZeroLD(), us, vs);
    var apEIP := SEVESResetEIP(Firmware(ovmf.table, ovmf.metadataItems));
    if apEIP.None? {
      return Err(NoResetAddress);
    }
    UpdateProcessors(gctx, g.vcpus, apEIP.value, g.features, g.vcpuSig);
    MeasureAppend(ZeroLD(), us + vs, VmsaUpdates(g.vcpus, apEIP.value, g.features, g.vcpuSig));
    return Ok(gctx.ld);
  }

  /** The last loop of CalcSNPLaunchDigest. */
  method UpdateProcessors(gctx: GCTX, vcpus: nat, apEip: nat, features: nat, vcpuSig: nat)
    modifies gctx
    ensures gctx.ld == Measure(old(gctx.ld), VmsaUpdates(vcpus, apEip, features, vcpuSig))
  {
    ghost var us := VmsaUpdates(vcpus, apEip, features, vcpuSig);
    var pages := Vmsa.VMSAPages(vcpus, apEip, features, vcpuSig);
    for i := 0 to |pages|
      invariant gctx.ld == Measure(old(gctx.ld), us[..i])
    {
      gctx.UpdateVMSAPage(pages[i]);
      MeasureAppend(old(gctx.ld), us[..i], [us[i]]);
      assert us[..i + 1] == us[..i] + [us[i]];
    }
    assert us[..vcpus] == us;
  }

  ghost function Copies(u: PageUpdate, n: nat): (r: seq<PageUpdate>) {
    seq(n, _ => u)
  }

  /** The digest for more processors, from the digest for one. */
  ghost function ExtendSpec(seed: LD, targetVCPUs: int, apEip: nat, vcpuSig: nat): (r: Result<LD>) {
    if targetVCPUs < 1 || targetVCPUs > 0xffff then Err(BadCount)
    else Ok(Measure(seed, Copies(VmsaUpdate(Vmsa.SaveArea(apEip, 0x1, vcpuSig)), targetVCPUs - 1)))
  }

  method ExtendSNPLaunchDigest(seed: LD, targetVCPUs: int, apEIP: nat, vcpuSig: nat) returns (r: Result<LD>)
    ensures r == ExtendSpec(seed, targetVCPUs, apEIP, vcpuSig)
  {
    if targetVCPUs < 1 || targetVCPUs > 0xffff {
      return Err(BadCount);
    }
    if targetVCPUs == 1 {
      return Ok(seed);
    }
    var ap := Vmsa.BuildVMSASaveArea(apEIP, 0x1, vcpuSig);
    var gctx := new GCTX.WithSeed(seed);
    AddProcessors(gctx, ap, targetVCPUs - 1);
    return Ok(gctx.ld);
  }

  /** The loop of ExtendSNPLaunchDigest. */
  method AddProcessors(gctx: GCTX, ap: seq<byte>, n: nat)
    modifies gctx
    ensures gctx.ld == Measure(old(gctx.ld), Copies(VmsaUpdate(ap), n))
  {
    ghost var us := Copies(VmsaUpdate(ap), n);
    for i := 0 to n
      invariant gctx.ld == Measure(old(gctx.ld), us[..i])
    {
      gctx.UpdateVMSAPage(ap);
      MeasureAppend(old(gctx.ld), us[..i], [us[i]]);
      assert us[..i + 1] == us[..i] + [us[i]];
    }
    assert us[..n] == us;
  }
}

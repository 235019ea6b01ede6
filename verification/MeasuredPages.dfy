/** Which memory of the guest the pages of the measurement stand for. */
module MeasuredPages {
  import opened Ideal
  import opened LittleEndian
  import opened Octets
  import opened Sequences
  import opened Ovmf
  import opened LaunchDigest
  import SevHashes

  ghost predicate CoveredBy(us: seq<PageUpdate>, i: int, address: nat) {
    0 <= i < |us| && us[i].gpa <= address < us[i].gpa + PAGE_SIZE
  }

  ghost predicate Covered(us: seq<PageUpdate>, address: nat) {
    exists i :: CoveredBy(us, i, address)
  }

  /** The pages are those of the range and no others: one after the other without overlap, each begins in the range,
      and each address of the range is in one of them. */
  ghost predicate CoverExactly(us: seq<PageUpdate>, start: nat, length: nat) {
    && (forall i, j :: 0 <= i < j < |us| ==> us[i].gpa + PAGE_SIZE <= us[j].gpa)
    && (forall i :: 0 <= i < |us| ==> start <= us[i].gpa < start + length)
    && (forall address :: start <= address < start + length ==> Covered(us, address))
  }

  ghost predicate Consecutive(us: seq<PageUpdate>, start: nat) {
    forall i :: 0 <= i < |us| ==> us[i].gpa == start + PAGE_SIZE * i
  }

  lemma ConsecutiveCover(us: seq<PageUpdate>, start: nat, length: nat)
    requires Consecutive(us, start) && |us| == (length + PAGE_SIZE - 1) / PAGE_SIZE
    ensures CoverExactly(us, start, length)
  {
    forall address | start <= address < start + length
      ensures Covered(us, address)
    {
      assert CoveredBy(us, (address - start) / PAGE_SIZE, address);
    }
  }

  lemma BlankPagesCover(kind: byte, start: Address, length: nat)
    requires start + length <= TWO_TO_64
    ensures CoverExactly(BlankPages(kind, start, length), start, length)
    ensures forall i :: 0 <= i < |BlankPages(kind, start, length)| ==>
                          BlankPages(kind, start, length)[i].kind == kind
                          && BlankPages(kind, start, length)[i].contents == ZeroLD()
  {
    var us := BlankPages(kind, start, length);
    forall i | 0 <= i < |us|
      ensures us[i].gpa == start + PAGE_SIZE * i
    {
      assert PAGE_SIZE * i < length;
    }
    ConsecutiveCover(us, start, length);
  }

  /** The page's contents are hashed into the update. */
  ghost predicate IsPage(u: PageUpdate, page: Bytes) {
    |page| == PAGE_SIZE && u.kind == NORMAL && u.contents == Digest384(page)
  }

  ghost predicate MeasuredAt(us: seq<PageUpdate>, i: int, page: Bytes, address: nat, octet: Octet) {
    CoveredBy(us, i, address) && IsPage(us[i], page) && page[address - us[i].gpa] == octet
  }

  /** Some page of the measurement has this octet at this address of the guest. */
  ghost predicate Measured(us: seq<PageUpdate>, address: nat, octet: Octet) {
    exists i, page :: MeasuredAt(us, i, page, address, octet)
  }

  lemma NormalPagesHold(start: Address, data: Bytes)
    requires |data| % PAGE_SIZE == 0 && start + |data| <= TWO_TO_64
    ensures CoverExactly(NormalPages(start, data), start, |data|)
    ensures forall k :: 0 <= k < |data| ==> Measured(NormalPages(start, data), start + k, data[k])
  {
    var us := NormalPages(start, data);
    forall i | 0 <= i < |us|
      ensures us[i].gpa == start + PAGE_SIZE * i && IsPage(us[i], PageAt(data, i))
    {
      assert PAGE_SIZE * i < |data|;
    }
    assert |us| == (|data| + PAGE_SIZE - 1) / PAGE_SIZE;
    ConsecutiveCover(us, start, |data|);
    forall k | 0 <= k < |data|
      ensures Measured(us, start + k, data[k])
    {
      var i := k / PAGE_SIZE;
      assert MeasuredAt(us, i, PageAt(data, i), start + k, data[k]);
    }
  }

  lemma MeasuredInFront(us: seq<PageUpdate>, n: nat, address: nat, octet: Octet)
    requires n <= |us| && Measured(us[..n], address, octet)
    ensures Measured(us, address, octet)
  {
    var i, page :| MeasuredAt(us[..n], i, page, address, octet);
    assert MeasuredAt(us, i, page, address, octet);
  }

  ghost predicate StartsWithImage(us: seq<PageUpdate>, image: seq<byte>) {
    && |image| % PAGE_SIZE == 0
    && var pages := NormalPages(ImageStart(image), Plain(image));
    |pages| <= |us| && us[..|pages|] == pages
  }

  lemma ImageFirst(g: Guest, us: seq<PageUpdate>)
    requires GuestOk(g) && LaunchUpdates(g) == Ok(us)
    ensures StartsWithImage(us, g.image)
  {
  }

  lemma ImageInFront(us: seq<PageUpdate>, image: seq<byte>, k: nat)
    requires k < |image| <= FOUR_GB && StartsWithImage(us, image)
    ensures Measured(us, FOUR_GB - |image| + k, Raw(image[k]))
  {
    var start, data := ImageStart(image), Plain(image);
    NormalPagesHold(start, data);
    assert start == FOUR_GB - |image| && data[k] == Raw(image[k]);
    assert Measured(NormalPages(start, data), start + k, data[k]);
    MeasuredInFront(us, |NormalPages(start, data)|, start + k, data[k]);
  }

  /** The image is measured octet by octet where the guest has it: it ends at 4 GB. */
  lemma ImageMeasuredBelow4GB(g: Guest, us: seq<PageUpdate>, k: nat)
    requires GuestOk(g) && LaunchUpdates(g) == Ok(us) && k < |g.image| <= FOUR_GB
    ensures Measured(us, FOUR_GB - |g.image| + k, Raw(g.image[k]))
  {
    ImageFirst(g, us);
    ImageInFront(us, g.image, k);
  }

  /** The section types of the firmware, and the page types of the launch update they are measured as: 5 for secrets,
      6 for the CPUID page, 3 for zeros, 1 for the page of the kernel hashes. */
  lemma PageTypes(fw: Firmware, s: MetadataSection, hashes: Option<SevHashes.Hashes>)
    requires SectionOk(s) && SectionUpdates(fw, s, hashes).Ok?
    ensures var us := SectionUpdates(fw, s, hashes).value;
            match s.kind
            case 2 => us == [PageUpdate(5, s.gpa, ZeroLD())]
            case 3 => us == [PageUpdate(6, s.gpa, ZeroLD())]
            case 0x10 => forall i :: 0 <= i < |us| ==> us[i].kind == if hashes.Some? then 1 else 3
            case _ => (s.kind == 1 || s.kind == 4) && forall i :: 0 <= i < |us| ==> us[i].kind == 3
  {
  }

  /** A section of blank memory is measured as its own pages, each once, at its own address. */
  lemma BlankSectionCovered(fw: Firmware, s: MetadataSection, hashes: Option<SevHashes.Hashes>)
    requires SectionOk(s)
    requires s.kind == SEC_MEM || s.kind == SVSM_CAA || (s.kind == KERNEL_HASHES && hashes.None?)
    ensures SectionUpdates(fw, s, hashes).Ok?
    ensures var us := SectionUpdates(fw, s, hashes).value;
            && CoverExactly(us, s.gpa, s.size)
            && forall i :: 0 <= i < |us| ==> us[i].kind == ZERO && us[i].contents == ZeroLD()
  {
    BlankPagesCover(ZERO, s.gpa, s.size);
  }

  /** An entry of 50 octets: which file, how long the entry is, and the digest of the file. */
  ghost predicate Labelled(entry: Bytes, guid: SevHashes.Guid, digest: Hash) {
    |entry| == 50 && entry[..16] == Plain(guid) && entry[16..18] == Plain(LE(2, |entry|)) && entry[18..] == digest
  }

  /** In the page: the digests of the three files, each behind the GUID that says of which file it is, and zeros
      around the table. The digest of the command line includes its terminating zero. */
  ghost predicate ShowsFiles(page: Bytes, offset: nat, boot: SevHashes.Boot)
    requires |page| == PAGE_SIZE && offset + SevHashes.TABLE_SIZE <= PAGE_SIZE
  {
    var g := SevHashes.TheGuids();
    var table := page[offset..offset + SevHashes.TABLE_SIZE];
    && table[..16] == Plain(g.header) && table[16..18] == Plain(LE(2, SevHashes.TABLE_SIZE))
    && Labelled(table[18..68], g.cmdline, Digest(boot.cmdline + [Raw(0)]))
    && Labelled(table[68..118], g.initrd, Digest(boot.initrd))
    && Labelled(table[118..168], g.kernel, Digest(boot.kernel))
    && page[..offset] == Zeros(offset)
    && page[offset + SevHashes.TABLE_SIZE..] == Zeros(PAGE_SIZE - offset - SevHashes.TABLE_SIZE)
  }

  lemma EntryLabelled(guid: SevHashes.Guid, digest: Hash)
    ensures Labelled(SevHashes.EntryOf(guid, digest), guid, digest)
  {
    var entry, length := SevHashes.EntryOf(guid, digest), Plain(LE(2, SevHashes.ENTRY_SIZE));
    assert entry[16..] == length + digest;
    assert entry[16..18] == length && entry[18..] == digest;
  }

  lemma TableLabelled(g: SevHashes.EntryGuids, h: SevHashes.Hashes)
    ensures var table := SevHashes.TableOf(g, h);
            && table[..16] == Plain(g.header) && table[16..18] == Plain(LE(2, SevHashes.TABLE_SIZE))
            && Labelled(table[18..68], g.cmdline, h.cmdline)
            && Labelled(table[68..118], g.initrd, h.initrd)
            && Labelled(table[118..168], g.kernel, h.kernel)
  {
    var e0, e1 := SevHashes.HeaderOf(g.header), SevHashes.EntryOf(g.cmdline, h.cmdline);
    var e2, e3 := SevHashes.EntryOf(g.initrd, h.initrd), SevHashes.EntryOf(g.kernel, h.kernel);
    var table := SevHashes.TableOf(g, h);
    assert table == e0 + e1 + e2 + e3;
    assert table[..18] == e0 && table[18..68] == e1 && table[68..118] == e2 && table[118..168] == e3;
    assert e0[..16] == Plain(g.header) && e0[16..18] == Plain(LE(2, SevHashes.TABLE_SIZE));
    SliceSlice(table, 0, 18, 0, 16);
    SliceSlice(table, 0, 18, 16, 18);
    EntryLabelled(g.cmdline, h.cmdline);
    EntryLabelled(g.initrd, h.initrd);
    EntryLabelled(g.kernel, h.kernel);
  }

  /** Wherever the table is, also across the end of the page: octet by octet, with zeros around it. */
  lemma TableOctetByOctet(table: Bytes, offset: nat, k: nat)
    requires offset < PAGE_SIZE && k < PAGE_SIZE
    ensures SevHashes.PageWith(table, offset)[k] == if offset <= k < offset + |table| then table[k - offset] else Raw(0)
  {
  }

  lemma AroundTable(table: Bytes, offset: nat)
    requires |table| == SevHashes.TABLE_SIZE && offset + SevHashes.TABLE_SIZE <= PAGE_SIZE
    ensures var page := SevHashes.PageWith(table + Zeros(8), offset);
            && page[offset..offset + SevHashes.TABLE_SIZE] == table
            && page[..offset] == Zeros(offset)
            && page[offset + SevHashes.TABLE_SIZE..] == Zeros(PAGE_SIZE - offset - SevHashes.TABLE_SIZE)
  {
    var padded, end := table + Zeros(8), offset + SevHashes.TABLE_SIZE;
    var page := SevHashes.PageWith(padded, offset);
    forall k | 0 <= k < PAGE_SIZE
      ensures page[k] == if offset <= k < end then table[k - offset] else Raw(0)
    {
      TableOctetByOctet(padded, offset, k);
    }
    assert forall k :: 0 <= k < SevHashes.TABLE_SIZE ==> page[offset..end][k] == page[offset + k];
    assert forall k :: 0 <= k < PAGE_SIZE - end ==> page[end..][k] == page[end + k];
  }

  lemma PageShowsFiles(boot: SevHashes.Boot, offset: nat)
    requires offset + SevHashes.TABLE_SIZE <= PAGE_SIZE
    ensures ShowsFiles(SevHashes.PageOf(SevHashes.HashesOf(boot), offset), offset, boot)
  {
    var g, h := SevHashes.TheGuids(), SevHashes.HashesOf(boot);
    AroundTable(SevHashes.TableOf(g, h), offset);
    TableLabelled(g, h);
  }

  /** The section of the kernel hashes is measured as one page, which shows the files the guest is started with
      where the firmware looks for them. */
  lemma HashSectionShowsFiles(fw: Firmware, s: MetadataSection, boot: SevHashes.Boot)
    requires SectionOk(s) && s.kind == KERNEL_HASHES
    requires SectionUpdates(fw, s, HashesOf(Some(boot))).Ok?
    requires SEVHashesTableGPA(fw).value % PAGE_SIZE + SevHashes.TABLE_SIZE <= PAGE_SIZE
    ensures var us := SectionUpdates(fw, s, HashesOf(Some(boot))).value;
            && |us| == 1 && us[0].gpa == s.gpa
            && exists page :: IsPage(us[0], page)
                              && ShowsFiles(page, SEVHashesTableGPA(fw).value % PAGE_SIZE, boot)
  {
    var offset := SEVHashesTableGPA(fw).value % PAGE_SIZE;
    var page := SevHashes.PageOf(SevHashes.HashesOf(boot), offset);
    PageShowsFiles(boot, offset);
    assert PageAt(page, 0) == page;
    assert IsPage(SectionUpdates(fw, s, HashesOf(Some(boot))).value[0], page);
  }

  // ---- All sections ----

  lemma {:induction false} SectionAmong(fw: Firmware, sections: seq<MetadataSection>, i: nat,
                                        hashes: Option<SevHashes.Hashes>)
    returns (before: seq<PageUpdate>, after: seq<PageUpdate>)
    requires SectionsOk(sections) && i < |sections| && AllSectionUpdates(fw, sections, hashes).Ok?
    ensures SectionUpdates(fw, sections[i], hashes).Ok?
    ensures AllSectionUpdates(fw, sections, hashes).value
         == before + (SectionUpdates(fw, sections[i], hashes).value + after)
    decreases |sections|
  {
    var n := |sections| - 1;
    if i == n {
      before, after := AllSectionUpdates(fw, sections[..n], hashes).value, [];
      assert SectionUpdates(fw, sections[n], hashes).value + [] == SectionUpdates(fw, sections[n], hashes).value;
    } else {
      var b, a := SectionAmong(fw, sections[..n], i, hashes);
      var us, vs := SectionUpdates(fw, sections[i], hashes).value, SectionUpdates(fw, sections[n], hashes).value;
      before, after := b, a + vs;
      Associative(b, us + a, vs);
      Associative(us, a, vs);
    }
  }

  /** What a section needs to be measured. */
  ghost predicate Measurable(fw: Firmware, s: MetadataSection, withHashes: bool) {
    && s.kind in {SEC_MEM, SECRETS_SECTION, CPUID_SECTION, SVSM_CAA, KERNEL_HASHES}
    && (s.kind == KERNEL_HASHES && withHashes ==> SEVHashesTableGPA(fw).Some? && s.size == PAGE_SIZE)
  }

  lemma {:induction false} SectionsSucceedExactly(fw: Firmware, sections: seq<MetadataSection>,
                                                  hashes: Option<SevHashes.Hashes>)
    requires SectionsOk(sections)
    ensures AllSectionUpdates(fw, sections, hashes).Ok? <==>
              forall i :: 0 <= i < |sections| ==> Measurable(fw, sections[i], hashes.Some?)
  {
    if sections != [] {
      var n := |sections| - 1;
      SectionsSucceedExactly(fw, sections[..n], hashes);
      assert SectionUpdates(fw, sections[n], hashes).Ok? <==> Measurable(fw, sections[n], hashes.Some?);
      assert sections == sections[..n] + [sections[n]];
    }
  }

  /** There is a launch digest exactly if the firmware parses into whole pages and names its reset address, each of
      its sections can be measured, and a kernel that is loaded has its section. */
  lemma LaunchSucceedsExactly(g: Guest)
    requires GuestOk(g)
    ensures LaunchUpdates(g).Ok? <==>
              && ParseFirmware(g.image).Some? && |g.image| % PAGE_SIZE == 0
              && var fw := ParseFirmware(g.image).value;
              && SEVESResetEIP(fw).Some?
              && (forall i :: 0 <= i < |fw.sections| ==> Measurable(fw, fw.sections[i], g.boot.Some?))
              && (g.boot.Some? ==> HasSection(fw.sections, KERNEL_HASHES))
  {
    if ParseFirmware(g.image).Some? {
      var fw := ParseFirmware(g.image).value;
      SectionsSucceedExactly(fw, fw.sections, HashesOf(g.boot));
    }
  }

  /** Every section is part of the measurement. */
  lemma SectionMeasured(g: Guest, i: nat) returns (before: seq<PageUpdate>, after: seq<PageUpdate>)
    requires GuestOk(g) && LaunchUpdates(g).Ok?
    requires i < |ParseFirmware(g.image).value.sections|
    ensures var fw := ParseFirmware(g.image).value;
            var us := SectionUpdates(fw, fw.sections[i], HashesOf(g.boot));
            us.Ok? && LaunchUpdates(g).value == before + (us.value + after)
  {
    var fw := ParseFirmware(g.image).value;
    var b, a := SectionAmong(fw, fw.sections, i, HashesOf(g.boot));
    var image, processors := LaunchParts(g);
    before, after := image + b, a + processors;
    var us := SectionUpdates(fw, fw.sections[i], HashesOf(g.boot)).value;
    Rearranged(image, b, us, a, processors);
  }

  lemma LaunchParts(g: Guest) returns (image: seq<PageUpdate>, processors: seq<PageUpdate>)
    requires GuestOk(g) && LaunchUpdates(g).Ok?
    ensures var fw := ParseFirmware(g.image).value;
            && AllSectionUpdates(fw, fw.sections, HashesOf(g.boot)).Ok?
            && LaunchUpdates(g).value
               == image + AllSectionUpdates(fw, fw.sections, HashesOf(g.boot)).value + processors
  {
    image := NormalPages(ImageStart(g.image), Plain(g.image));
    processors := VmsaUpdates(g.vcpus, SEVESResetEIP(ParseFirmware(g.image).value).value, g.features, g.vcpuSig);
  }

  lemma Rearranged<T>(a: seq<T>, b: seq<T>, c: seq<T>, d: seq<T>, e: seq<T>)
    ensures a + (b + (c + d)) + e == (a + b) + (c + (d + e))
  {
  }
}

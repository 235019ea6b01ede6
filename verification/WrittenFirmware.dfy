/** Firmware images as they are built: what the entries of the footer table say is what the measurement uses. */
module WrittenFirmware {
  import opened Ideal
  import opened LittleEndian
  import opened Octets
  import opened Guids
  import opened Ovmf
  import opened LaunchDigest
  import Vmsa

  // The GUIDs of the entries, as they are stored.
  const RESET_BLOCK_BYTES: seq<byte> :=
    [0xde, 0x71, 0xf7, 0x00, 0x7e, 0x1a, 0xcb, 0x4f, 0x89, 0x0e, 0x68, 0xc7, 0x7e, 0x2f, 0xb4, 0x4e]
  const HASH_TABLE_BYTES: seq<byte> :=
    [0x1f, 0x37, 0x55, 0x72, 0x3b, 0x3a, 0x04, 0x4b, 0x92, 0x7b, 0x1d, 0xa6, 0xef, 0xa8, 0xd4, 0x54]
  const METADATA_BYTES: seq<byte> :=
    [0x66, 0x65, 0x88, 0xdc, 0x4a, 0x98, 0x98, 0x47, 0xa7, 0x5e, 0x55, 0x85, 0xa7, 0xbf, 0x67, 0xcc]

  lemma ResetBlockDashed(a: string, b: string, c: string, d: string, e: string)
    requires a == "00f771de" && b == "1a7e" && c == "4fcb" && d == "890e" && e == "68c77e2fb44e"
    ensures Dashed(a, b, c, d, e) == RESET_BLOCK_GUID
  {
  }

  lemma HashTableDashed(a: string, b: string, c: string, d: string, e: string)
    requires a == "7255371f" && b == "3a3b" && c == "4b04" && d == "927b" && e == "1da6efa8d454"
    ensures Dashed(a, b, c, d, e) == HASH_TABLE_GUID
  {
  }

  lemma MetadataDashed(a: string, b: string, c: string, d: string, e: string)
    requires a == "dc886566" && b == "984a" && c == "4798" && d == "a75e" && e == "5585a7bf67cc"
    ensures Dashed(a, b, c, d, e) == METADATA_GUID
  {
  }

  lemma ResetBlockText(g: seq<byte>)
    requires g == RESET_BLOCK_BYTES
    ensures GuidString(g) == RESET_BLOCK_GUID
  {
    GuidText(g, "00f771de", "1a7e", "4fcb", "890e", "68c77e2fb44e");
    ResetBlockDashed("00f771de", "1a7e", "4fcb", "890e", "68c77e2fb44e");
  }

  lemma HashTableText(g: seq<byte>)
    requires g == HASH_TABLE_BYTES
    ensures GuidString(g) == HASH_TABLE_GUID
  {
    GuidText(g, "7255371f", "3a3b", "4b04", "927b", "1da6efa8d454");
    HashTableDashed("7255371f", "3a3b", "4b04", "927b", "1da6efa8d454");
  }

  lemma MetadataText(g: seq<byte>)
    requires g == METADATA_BYTES
    ensures GuidString(g) == METADATA_GUID
  {
    GuidText(g, "dc886566", "984a", "4798", "a75e", "5585a7bf67cc");
    MetadataDashed("dc886566", "984a", "4798", "a75e", "5585a7bf67cc");
  }

  // ---- Entries ----

  ghost predicate FrontMostAt(entries: seq<Entry>, i: int, guid: seq<byte>, data: seq<byte>) {
    0 <= i < |entries| && entries[i] == Entry(guid, data) && forall j :: 0 <= j < i ==> entries[j].guid != guid
  }

  /** Of the entries with this GUID, the front-most has this data. */
  ghost predicate FrontMost(entries: seq<Entry>, guid: seq<byte>, data: seq<byte>) {
    exists i :: FrontMostAt(entries, i, guid, data)
  }

  ghost predicate EntriesOk(entries: seq<Entry>) {
    forall i :: 0 <= i < |entries| ==> EntryOk(entries[i])
  }

  lemma SameGuid(entries: seq<Entry>, i: nat, guid: seq<byte>, text: string)
    requires EntriesOk(entries) && i < |entries| && |guid| == 16 && GuidString(guid) == text
    ensures GuidString(entries[i].guid) == text <==> entries[i].guid == guid
  {
    if GuidString(entries[i].guid) == text {
      GuidStringInjective(entries[i].guid, guid);
    }
  }

  lemma {:induction false} FirstWith(entries: seq<Entry>, guid: seq<byte>, k: nat) returns (i: nat)
    requires k < |entries| && entries[k].guid == guid
    ensures i <= k && FrontMostAt(entries, i, guid, entries[i].data)
  {
    if j :| 0 <= j < k && entries[j].guid == guid {
      i := FirstWith(entries, guid, j);
    } else {
      i := k;
    }
  }

  /** The table gives for a GUID what the front-most entry with that GUID holds. */
  lemma TableIs(entries: seq<Entry>, guid: seq<byte>, text: string, data: seq<byte>)
    requires EntriesOk(entries) && |guid| == 16 && GuidString(guid) == text
    ensures text in TableOf(entries) && TableOf(entries)[text] == data <==> FrontMost(entries, guid, data)
  {
    forall i | 0 <= i < |entries|
      ensures GuidString(entries[i].guid) == text <==> entries[i].guid == guid
    {
      SameGuid(entries, i, guid, text);
    }
    if i :| FrontMostAt(entries, i, guid, data) {
      FrontMostWins(entries, i);
    }
    if text in TableOf(entries) {
      NothingElseInTable(entries, text);
      var k :| 0 <= k < |entries| && GuidString(entries[k].guid) == text;
      var i := FirstWith(entries, guid, k);
      FrontMostWins(entries, i);
    }
  }

  /** The front-most entry with this GUID starts with a number of four bytes. */
  ghost predicate HasWord(entries: seq<Entry>, guid: seq<byte>, v: nat) {
    exists rest :: FrontMost(entries, guid, LE(4, v) + rest)
  }

  lemma WordIs(entries: seq<Entry>, guid: seq<byte>, text: string, v: nat)
    requires EntriesOk(entries) && |guid| == 16 && GuidString(guid) == text && v < FOUR_GB
    ensures Word(TableOf(entries), text) == Some(v) <==> HasWord(entries, guid, v)
  {
    var table := TableOf(entries);
    Widths();
    if rest :| FrontMost(entries, guid, LE(4, v) + rest) {
      TableIs(entries, guid, text, LE(4, v) + rest);
      assert table[text][..4] == LE(4, v);
      EncodeLE(4, v);
    }
    if Word(table, text) == Some(v) {
      CodecLE(table[text][..4], v);
      var rest := table[text][4..];
      assert table[text] == LE(4, v) + rest;
      TableIs(entries, guid, text, LE(4, v) + rest);
    }
  }

  // ---- Images ----

  lemma WrittenTable(image: seq<byte>, front: seq<byte>, f: Footer, tail: seq<byte>)
    requires WrittenWith(image, front, f, tail)
    ensures EntriesOk(f.entries) && FooterFits(image) && FooterTable(image) == Parsed(TableOf(f.entries))
    ensures ParseFirmware(image).Some? ==> ParseFirmware(image).value.table == TableOf(f.entries)
  {
    WrittenTableParses(front, f, tail);
  }

  /** The reset address is the number in the front-most reset block of the image. */
  lemma ResetAddressAsWritten(image: seq<byte>, front: seq<byte>, f: Footer, tail: seq<byte>, eip: nat)
    requires WrittenWith(image, front, f, tail) && eip < FOUR_GB
    ensures FooterFits(image)
    ensures ParseFirmware(image).Some? ==>
              (SEVESResetEIP(ParseFirmware(image).value) == Some(eip) <==> HasWord(f.entries, RESET_BLOCK_BYTES, eip))
  {
    WrittenTable(image, front, f, tail);
    ResetBlockText(RESET_BLOCK_BYTES);
    WordIs(f.entries, RESET_BLOCK_BYTES, RESET_BLOCK_GUID, eip);
  }

  /** The address of the hash table is the number in the front-most hash table block of the image. */
  lemma HashTableAsWritten(image: seq<byte>, front: seq<byte>, f: Footer, tail: seq<byte>, gpa: nat)
    requires WrittenWith(image, front, f, tail) && gpa < FOUR_GB
    ensures FooterFits(image)
    ensures ParseFirmware(image).Some? ==>
              (SEVHashesTableGPA(ParseFirmware(image).value) == Some(gpa)
               <==> HasWord(f.entries, HASH_TABLE_BYTES, gpa))
  {
    WrittenTable(image, front, f, tail);
    HashTableText(HASH_TABLE_BYTES);
    WordIs(f.entries, HASH_TABLE_BYTES, HASH_TABLE_GUID, gpa);
  }

  /** The sections are written as many bytes before the end of the image as its metadata entry says. */
  ghost predicate SectionsWritten(image: seq<byte>, entries: seq<Entry>, sections: seq<MetadataSection>) {
    exists offset, size :: SectionsWrittenAt(image, entries, sections, offset, size)
  }

  ghost predicate SectionsWrittenAt(image: seq<byte>, entries: seq<Entry>, sections: seq<MetadataSection>, offset: nat,
                                    size: nat)
  {
    && offset < FOUR_GB && HasWord(entries, METADATA_BYTES, offset)
    && offset <= |image| && Metadata(image, |image| - offset, size, sections)
  }

  lemma SectionsByWord(image: seq<byte>, table: Table)
    requires METADATA_GUID in table
    ensures var w := Word(table, METADATA_GUID);
            Sections(image, table) == if w.None? then BadMetadata else SectionsFrom(image, |image| - w.value)
  {
  }

  lemma SectionsReadBack(image: seq<byte>, start: int, sections: seq<MetadataSection>)
    requires start <= |image|
    ensures SectionsFrom(image, start) == Parsed(sections) <==>
              start >= 0 && exists size :: Metadata(image, start, size, sections)
  {
    if SectionsFrom(image, start) == Parsed(sections) {
      var size := SectionsWereWritten(image, start);
    }
    if start >= 0 {
      if size :| Metadata(image, start, size, sections) {
        SectionsRoundTrip(image, start, size, sections);
      }
    }
  }

  ghost predicate WithoutMetadata(entries: seq<Entry>) {
    forall i :: 0 <= i < |entries| ==> entries[i].guid != METADATA_BYTES
  }

  lemma NoMetadataEntry(entries: seq<Entry>)
    requires EntriesOk(entries)
    ensures METADATA_GUID !in TableOf(entries) <==> WithoutMetadata(entries)
  {
    MetadataText(METADATA_BYTES);
    if METADATA_GUID in TableOf(entries) {
      TableIs(entries, METADATA_BYTES, METADATA_GUID, TableOf(entries)[METADATA_GUID]);
    }
    if k :| 0 <= k < |entries| && entries[k].guid == METADATA_BYTES {
      var i := FirstWith(entries, METADATA_BYTES, k);
      TableIs(entries, METADATA_BYTES, METADATA_GUID, entries[i].data);
    }
  }

  lemma SectionsAsWritten(image: seq<byte>, entries: seq<Entry>, sections: seq<MetadataSection>)
    requires EntriesOk(entries) && METADATA_GUID in TableOf(entries)
    ensures Sections(image, TableOf(entries)) == Parsed(sections) <==> SectionsWritten(image, entries, sections)
  {
    var table := TableOf(entries);
    MetadataText(METADATA_BYTES);
    SectionsByWord(image, table);
    if offset, size :| SectionsWrittenAt(image, entries, sections, offset, size) {
      WordIs(entries, METADATA_BYTES, METADATA_GUID, offset);
      SectionsReadBack(image, |image| - offset, sections);
    }
    if Sections(image, table) == Parsed(sections) {
      var offset := Word(table, METADATA_GUID).value;
      WordIs(entries, METADATA_BYTES, METADATA_GUID, offset);
      SectionsReadBack(image, |image| - offset, sections);
      var size :| Metadata(image, |image| - offset, size, sections);
      assert SectionsWrittenAt(image, entries, sections, offset, size);
    }
  }

  /** Of a written image, the parser accepts exactly those with their metadata in place, or with no metadata at
      all, and then yields the entries and the sections as they were written. */
  lemma FirmwareAsWritten(image: seq<byte>, front: seq<byte>, f: Footer, tail: seq<byte>,
                          sections: seq<MetadataSection>)
    requires WrittenWith(image, front, f, tail)
    ensures FooterFits(image)
    ensures ParseFirmware(image) == Some(Firmware(TableOf(f.entries), sections)) <==>
              if WithoutMetadata(f.entries) then sections == [] else SectionsWritten(image, f.entries, sections)
  {
    WrittenTable(image, front, f, tail);
    NoMetadataEntry(f.entries);
    if !WithoutMetadata(f.entries) {
      SectionsAsWritten(image, f.entries, sections);
    }
  }

  lemma OtherGuid(g: seq<byte>, footer: seq<byte>)
    requires |g| == 16 && footer == FOOTER_GUID_BYTES && g != footer
    ensures GuidString(g) != FOOTER_GUID
  {
    FooterGuidText(footer);
    if GuidString(g) == FOOTER_GUID {
      GuidStringInjective(g, footer);
    }
  }

  /** An image without a footer has no table, and that is no error. */
  lemma WithoutFooter(image: seq<byte>)
    requires |image| < 50 || image[|image| - 48..|image| - 32] != FOOTER_GUID_BYTES
             || FromLE(image[|image| - 50..|image| - 48]) < 18
    ensures FooterFits(image) && ParseFirmware(image) == Some(Firmware(map[], []))
  {
    if |image| >= 50 {
      var trailer := image[|image| - 50..|image| - 32];
      TrailerOf(image);
      assert trailer[..2] == image[|image| - 50..|image| - 48];
      assert trailer[2..][..16] == image[|image| - 48..|image| - 32];
      if trailer[2..][..16] != FOOTER_GUID_BYTES {
        OtherGuid(trailer[2..][..16], FOOTER_GUID_BYTES);
      }
      assert !HasFooter(image);
    }
  }

  // ---- Processors ----

  /** A processor with this save area starts at this address: code segment base and instruction offset. */
  ghost predicate StartsAt(page: seq<byte>, address: nat) {
    |page| == PAGE_SIZE && FromLE(page[0x018..0x020]) + FromLE(page[0x178..0x180]) == address
  }

  lemma SaveAreaStartsAt(eip: nat, features: nat, vcpuSig: nat)
    requires Vmsa.Bits32(eip)
    ensures StartsAt(Vmsa.SaveArea(eip, features, vcpuSig), eip)
  {
    Vmsa.CodeSegmentBase(eip, features, vcpuSig);
    Vmsa.InstructionPointer(eip, features, vcpuSig);
  }

  lemma ProcessorsLast(g: Guest, eip: nat) returns (before: seq<PageUpdate>)
    requires GuestOk(g) && LaunchUpdates(g).Ok? && SEVESResetEIP(ParseFirmware(g.image).value) == Some(eip)
    ensures LaunchUpdates(g).value == before + VmsaUpdates(g.vcpus, eip, g.features, g.vcpuSig)
  {
    var metadata := MetadataUpdates(ParseFirmware(g.image).value, HashesOf(g.boot)).value;
    before := NormalPages(ImageStart(g.image), Plain(g.image)) + metadata;
  }

  lemma LastOnes(before: seq<PageUpdate>, processors: seq<PageUpdate>, i: nat)
    requires i < |processors|
    ensures var us := before + processors; us[|us| - |processors| + i] == processors[i]
  {
  }

  /** Where a processor starts: the first at the reset vector, all others at the address in the image. */
  ghost predicate StartOf(i: nat, eip: nat, start: nat) {
    start == if i == 0 then 0xffff_fff0 else eip
  }

  lemma ProcessorAt(n: nat, eip: nat, features: nat, vcpuSig: nat, i: nat, start: nat)
    requires i < n && StartOf(i, eip, start)
    ensures VmsaUpdates(n, eip, features, vcpuSig)[i] == VmsaUpdate(Vmsa.SaveArea(start, features, vcpuSig))
  {
  }

  /** The last pages of the measurement are one save area per processor, and each makes its processor start where
      it should: the others at the number in the front-most reset block of the image. */
  lemma ProcessorsStartAsWritten(g: Guest, front: seq<byte>, f: Footer, tail: seq<byte>, eip: nat, i: nat, start: nat)
    requires GuestOk(g) && LaunchUpdates(g).Ok? && i < g.vcpus && StartOf(i, eip, start)
    requires WrittenWith(g.image, front, f, tail) && eip < FOUR_GB && HasWord(f.entries, RESET_BLOCK_BYTES, eip)
    ensures var us, page := LaunchUpdates(g).value, Vmsa.SaveArea(start, g.features, g.vcpuSig);
            && StartsAt(page, start)
            && |us| >= g.vcpus
            && us[|us| - g.vcpus + i] == PageUpdate(VMSA_PAGE, VMSA_GPA, Digest384(Plain(page)))
  {
    ResetAddressAsWritten(g.image, front, f, tail, eip);
    SaveAreaStartsAt(start, g.features, g.vcpuSig);
    var before := ProcessorsLast(g, eip);
    LastOnes(before, VmsaUpdates(g.vcpus, eip, g.features, g.vcpuSig), i);
    ProcessorAt(g.vcpus, eip, g.features, g.vcpuSig, i, start);
  }
}

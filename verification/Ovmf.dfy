/** The OVMF firmware image: its footer table of GUIDs, parsed from back to front, and the SEV
  * metadata sections that one of the entries points to.
  */
module Ovmf {
  import opened Ideal
  import opened LittleEndian
  import opened Sequences
  import opened Guids

  const FOUR_GB: nat := 0x1_0000_0000
  const TWO_TO_64: nat := 0x1_0000_0000_0000_0000

  const FOOTER_GUID := "96b582de-1fb2-45f7-baea-a366c55a082d"
  const HASH_TABLE_GUID := "7255371f-3a3b-4b04-927b-1da6efa8d454"
  const RESET_BLOCK_GUID := "00f771de-1a7e-4fcb-890e-68c77e2fb44e"
  const METADATA_GUID := "dc886566-984a-4798-a75e-5585a7bf67cc"

  type Table = map<string, seq<byte>>

  datatype ParseResult<+T> = Parsed(value: T) | BadEntrySize | PastTableStart | BadMetadata

  // ---- The format of the footer table ----

  /** An entry is its data, its size including this 18-byte trailer, and its GUID. */
  datatype Entry = Entry(guid: seq<byte>, data: seq<byte>)

  predicate EntryOk(e: Entry) {
    |e.guid| == 16 && |e.data| + 18 < 0x1_0000
  }

  function EncodeEntry(e: Entry): (b: seq<byte>)
    ensures |b| == |e.data| + 2 + |e.guid|
  {
    e.data + LE(2, |e.data| + 18) + e.guid
  }

  function EncodeTable(entries: seq<Entry>): (r: seq<byte>) {
    if entries == [] then []
    else EncodeTable(entries[..|entries| - 1]) + EncodeEntry(entries[|entries| - 1])
  }

  /** Of several entries with one GUID, the front-most counts. */
  function TableOf(entries: seq<Entry>): (r: Table) {
    if entries == [] then map[] else TableOf(entries[1..])[GuidString(entries[0].guid) := entries[0].data]
  }

  lemma {:induction false} FrontMostWins(entries: seq<Entry>, i: nat)
    requires i < |entries|
    requires forall j :: 0 <= j < i ==> GuidString(entries[j].guid) != GuidString(entries[i].guid)
    ensures GuidString(entries[i].guid) in TableOf(entries)
    ensures TableOf(entries)[GuidString(entries[i].guid)] == entries[i].data
  {
    if i > 0 {
      assert entries[1..][i - 1] == entries[i];
      forall j | 0 <= j < i - 1
        ensures GuidString(entries[1..][j].guid) != GuidString(entries[i].guid)
      {
        assert entries[1..][j] == entries[j + 1];
      }
      FrontMostWins(entries[1..], i - 1);
    }
  }

  lemma {:induction false} NothingElseInTable(entries: seq<Entry>, guid: string)
    requires guid in TableOf(entries)
    ensures exists i :: 0 <= i < |entries| && GuidString(entries[i].guid) == guid
  {
    if GuidString(entries[0].guid) != guid {
      NothingElseInTable(entries[1..], guid);
      var i :| 0 <= i < |entries| - 1 && GuidString(entries[1..][i].guid) == guid;
      assert entries[i + 1] == entries[1..][i];
    }
  }

  /** The entries, and the bytes in front that are too few for another entry. */
  datatype Footer = Footer(leftover: seq<byte>, entries: seq<Entry>)

  /** A run of bytes, cut into entries from the back. */
  function Split(b: seq<byte>): (r: ParseResult<Footer>) {
    if |b| < 18 then Parsed(Footer(b, []))
    else
      var size := FromLE(b[|b| - 18..][..2]);
      if size < 18 then BadEntrySize
      else if size > |b| then PastTableStart
      else
        match Split(b[..|b| - size])
        case Parsed(f) => Parsed(f.(entries := f.entries + [LastEntry(b)]))
        case error => error
  }

  function LastEntry(b: seq<byte>): (r: Entry)
    requires |b| >= 18 && 18 <= FromLE(b[|b| - 18..][..2]) <= |b|
  {
    Entry(b[|b| - 16..], b[|b| - FromLE(b[|b| - 18..][..2])..|b| - 18])
  }

  predicate FooterOk(f: Footer) {
    |f.leftover| < 18 && forall i :: 0 <= i < |f.entries| ==> EntryOk(f.entries[i])
  }

  lemma LastEntryEncodes(b: seq<byte>)
    requires |b| >= 18 && 18 <= FromLE(b[|b| - 18..][..2]) <= |b|
    ensures EntryOk(LastEntry(b))
    ensures b == b[..|b| - FromLE(b[|b| - 18..][..2])] + EncodeEntry(LastEntry(b))
  {
    Widths();
    DecodeLE(b[|b| - 18..][..2]);
  }

  lemma EncodedIsLastEntry(front: seq<byte>, e: Entry)
    requires EntryOk(e)
    ensures var b := front + EncodeEntry(e);
            && FromLE(b[|b| - 18..][..2]) == |e.data| + 18
            && LastEntry(b) == e
            && b[..|b| - (|e.data| + 18)] == front
  {
    var b := front + EncodeEntry(e);
    Widths();
    EncodeLE(2, |e.data| + 18);
    assert b[|b| - 18..] == LE(2, |e.data| + 18) + e.guid;
    assert b[|b| - 18..][..2] == LE(2, |e.data| + 18);
    assert b[|b| - 16..] == e.guid;
  }

  lemma {:induction false} SplitEncodes(b: seq<byte>)
    requires Split(b).Parsed?
    ensures FooterOk(Split(b).value)
    ensures b == Split(b).value.leftover + EncodeTable(Split(b).value.entries)
    decreases |b|
  {
    if |b| >= 18 {
      var front := b[..|b| - FromLE(b[|b| - 18..][..2])];
      var f := Split(front).value;
      SplitEncodes(front);
      LastEntryEncodes(b);
      var entries := f.entries + [LastEntry(b)];
      assert entries[..|entries| - 1] == f.entries;
      assert b == (f.leftover + EncodeTable(f.entries)) + EncodeEntry(LastEntry(b));
    }
  }

  lemma OneMoreEntry(b: seq<byte>, leftover: seq<byte>, entries: seq<Entry>, e: Entry)
    requires EntryOk(e) && Split(b) == Parsed(Footer(leftover, entries))
    ensures Split(b + EncodeEntry(e)) == Parsed(Footer(leftover, entries + [e]))
  {
    EncodedIsLastEntry(b, e);
  }

  lemma {:induction false} EncodedSplits(leftover: seq<byte>, entries: seq<Entry>)
    requires FooterOk(Footer(leftover, entries))
    ensures Split(leftover + EncodeTable(entries)) == Parsed(Footer(leftover, entries))
  {
    if entries == [] {
      assert leftover + EncodeTable([]) == leftover;
    } else {
      var front, e := entries[..|entries| - 1], entries[|entries| - 1];
      EncodedSplits(leftover, front);
      OneMoreEntry(leftover + EncodeTable(front), leftover, front, e);
      Associative(leftover, EncodeTable(front), EncodeEntry(e));
      assert entries == front + [e];
    }
  }

  /** Which error there is: behind the place of the error everything was written as entries, and there the size is
      too small for a trailer or too large for what is in front of it. */
  lemma {:induction false} SplitFails(b: seq<byte>) returns (front: seq<byte>, entries: seq<Entry>)
    requires !Split(b).Parsed?
    ensures forall i :: 0 <= i < |entries| ==> EntryOk(entries[i])
    ensures b == front + EncodeTable(entries) && |front| >= 18
    ensures var size := FromLE(front[|front| - 18..][..2]);
            Split(b) == if size < 18 then BadEntrySize else PastTableStart
    ensures var size := FromLE(front[|front| - 18..][..2]);
            size < 18 || size > |front|
    decreases |b|
  {
    var size := FromLE(b[|b| - 18..][..2]);
    if size < 18 || size > |b| {
      front, entries := b, [];
      assert b + EncodeTable([]) == b;
    } else {
      var before := b[..|b| - size];
      var es;
      front, es := SplitFails(before);
      LastEntryEncodes(b);
      entries := es + [LastEntry(b)];
      assert entries[..|entries| - 1] == es;
      Associative(front, EncodeTable(es), EncodeEntry(LastEntry(b)));
    }
  }

  // ---- Where the footer table is ----

  function FooterStart(data: seq<byte>): (r: int) {
    |data| - 32 - 18
  }

  function FooterSize(data: seq<byte>): (r: int)
    requires |data| >= 50
  {
    FromLE(data[FooterStart(data)..][..2]) - 18
  }

  predicate HasFooter(data: seq<byte>) {
    && |data| >= 50
    && GuidString(data[FooterStart(data) + 2..][..16]) == FOOTER_GUID
    && FooterSize(data) >= 0
  }

  /** The declared table does not reach beyond the start of the image. */
  predicate FooterFits(data: seq<byte>) {
    HasFooter(data) ==> FooterSize(data) <= FooterStart(data)
  }

  function FooterBytes(data: seq<byte>): (r: seq<byte>)
    requires HasFooter(data) && FooterFits(data)
  {
    data[FooterStart(data) - FooterSize(data)..FooterStart(data)]
  }

  function FooterTable(data: seq<byte>): (r: ParseResult<Table>)
    requires FooterFits(data)
  {
    if !HasFooter(data) then Parsed(map[])
    else TableFrom(Split(FooterBytes(data)), [])
  }

  /** The table of a footer that ends in these entries. */
  function TableFrom(front: ParseResult<Footer>, entries: seq<Entry>): (r: ParseResult<Table>) {
    match front
    case Parsed(f) => Parsed(TableOf(f.entries + entries))
    case BadEntrySize => BadEntrySize
    case PastTableStart => PastTableStart
    case BadMetadata => BadMetadata
  }

  const FOOTER_GUID_BYTES: seq<byte> :=
    [0xde, 0x82, 0xb5, 0x96, 0xb2, 0x1f, 0xf7, 0x45, 0xba, 0xea, 0xa3, 0x66, 0xc5, 0x5a, 0x08, 0x2d]

  lemma FooterGuidText(g: seq<byte>)
    requires g == FOOTER_GUID_BYTES
    ensures GuidString(g) == FOOTER_GUID
  {
    GuidText(g, "96b582de", "1fb2", "45f7", "baea", "a366c55a082d");
    FooterGuidDashed("96b582de", "1fb2", "45f7", "baea", "a366c55a082d");
  }

  lemma FooterGuidDashed(a: string, b: string, c: string, d: string, e: string)
    requires a == "96b582de" && b == "1fb2" && c == "45f7" && d == "baea" && e == "a366c55a082d"
    ensures Dashed(a, b, c, d, e) == FOOTER_GUID
  {
  }

  function Trailer(size: nat): (t: seq<byte>)
    ensures |t| == 18
  {
    LE(2, size) + FOOTER_GUID_BYTES
  }

  /** An image with a footer table: anything, the table, its trailer, and 32 more bytes. */
  function Image(front: seq<byte>, f: Footer, tail: seq<byte>): (r: seq<byte>)
  {
    var table := f.leftover + EncodeTable(f.entries);
    front + (table + (Trailer(|table| + 18) + tail))
  }

  ghost predicate WrittenWith(data: seq<byte>, front: seq<byte>, f: Footer, tail: seq<byte>)
  {
    && FooterOk(f) && |tail| == 32
    && |f.leftover + EncodeTable(f.entries)| + 18 < 0x1_0000
    && data == Image(front, f, tail)
  }

  lemma SizeThenGuid(t: seq<byte>, size: nat, guid: seq<byte>)
    requires |t| == 18 && size < 0x1_0000 && |guid| == 16
    ensures t == LE(2, size) + guid <==> FromLE(t[..2]) == size && GuidString(t[2..][..16]) == GuidString(guid)
  {
    Widths();
    CodecLE(t[..2], size);
    assert t[2..][..16] == t[2..];
    if GuidString(t[2..]) == GuidString(guid) {
      GuidStringInjective(t[2..], guid);
    }
    assert t == t[..2] + t[2..];
    SameHalves(t[..2], t[2..], LE(2, size), guid);
  }

  lemma TrailerCodec(t: seq<byte>, size: nat)
    requires |t| == 18 && size < 0x1_0000
    ensures t == Trailer(size) <==> FromLE(t[..2]) == size && GuidString(t[2..][..16]) == FOOTER_GUID
  {
    var g := FOOTER_GUID_BYTES;
    FooterGuidText(g);
    SizeThenGuid(t, size, g);
  }

  lemma TrailerOf(data: seq<byte>)
    requires |data| >= 50
    ensures var t := data[FooterStart(data)..FooterStart(data) + 18];
            && data[FooterStart(data)..][..2] == t[..2]
            && data[FooterStart(data) + 2..][..16] == t[2..][..16]
  {
  }

  lemma ImageParts(front: seq<byte>, table: seq<byte>, trailer: seq<byte>, tail: seq<byte>)
    requires |trailer| == 18 && |tail| == 32
    ensures var data := front + (table + (trailer + tail));
            && FooterStart(data) == |front| + |table|
            && data[FooterStart(data)..FooterStart(data) + 18] == trailer
            && data[|front|..FooterStart(data)] == table
  {
    var data := front + (table + (trailer + tail));
    assert data == (front + table) + (trailer + tail);
    Middle(front + table, trailer, tail);
    Middle(front, table, trailer + tail);
  }

  lemma FooterFound(data: seq<byte>, size: nat)
    requires |data| >= 50 && size + 18 < 0x1_0000
    requires data[FooterStart(data)..FooterStart(data) + 18] == Trailer(size + 18)
    ensures HasFooter(data) && FooterSize(data) == size
  {
    TrailerOf(data);
    TrailerCodec(data[FooterStart(data)..FooterStart(data) + 18], size + 18);
  }

  /** Parsing inverts writing. */
  lemma WrittenTableParses(front: seq<byte>, f: Footer, tail: seq<byte>)
    requires FooterOk(f) && |tail| == 32
    requires |f.leftover + EncodeTable(f.entries)| + 18 < 0x1_0000
    ensures var data := Image(front, f, tail);
            HasFooter(data) && FooterFits(data) && FooterTable(data) == Parsed(TableOf(f.entries))
  {
    var data := Image(front, f, tail);
    var table := f.leftover + EncodeTable(f.entries);
    ImageParts(front, table, Trailer(|table| + 18), tail);
    FooterFound(data, |table|);
    EncodedSplits(f.leftover, f.entries);
    assert f.entries + [] == f.entries;
  }

  lemma PartsOfImage(data: seq<byte>)
    requires HasFooter(data) && FooterFits(data)
    ensures var start := FooterStart(data);
            data
                == data[..start - FooterSize(data)]
                    + (FooterBytes(data) + (data[start..start + 18] + data[start + 18..]))
  {
    var start := FooterStart(data);
    assert data[start..] == data[start..start + 18] + data[start + 18..];
    assert data[start - FooterSize(data)..] == FooterBytes(data) + data[start..];
  }

  /** And the parser accepts nothing that was not written so. */
  lemma ParsedTableWasWritten(data: seq<byte>) returns (front: seq<byte>, f: Footer, tail: seq<byte>)
    requires HasFooter(data) && FooterFits(data) && FooterTable(data).Parsed?
    ensures WrittenWith(data, front, f, tail)
    ensures FooterTable(data) == Parsed(TableOf(f.entries))
  {
    var start := FooterStart(data);
    f := Split(FooterBytes(data)).value;
    assert f.entries + [] == f.entries;
    SplitEncodes(FooterBytes(data));
    front, tail := data[..start - FooterSize(data)], data[start + 18..];
    var t := data[start..start + 18];
    TrailerOf(data);
    Widths();
    DecodeLE(t[..2]);
    TrailerCodec(t, FooterSize(data) + 18);
    PartsOfImage(data);
  }

  // ---- SEV metadata ----

  datatype MetadataSection = MetadataSection(gpa: nat, size: nat, kind: nat)

  predicate SectionOk(s: MetadataSection) {
    s.gpa < FOUR_GB && s.size < FOUR_GB && s.kind < FOUR_GB
  }

  function EncodeSection(s: MetadataSection): (b: seq<byte>)
    ensures |b| == 12
  {
    LE(4, s.gpa) + LE(4, s.size) + LE(4, s.kind)
  }

  function SectionAt(b: seq<byte>, i: nat): (r: MetadataSection)
    requires 12 * i + 12 <= |b|
  {
    var s := b[12 * i..12 * i + 12];
    MetadataSection(FromLE(s[0..4]), FromLE(s[4..8]), FromLE(s[8..12]))
  }

  lemma SectionCodec(s: MetadataSection, b: seq<byte>)
    requires |b| == 12 && SectionOk(s)
    ensures b == EncodeSection(s) <==> SectionAt(b, 0) == s
  {
    Widths();
    assert b[0..12] == b;
    CodecLE(b[0..4], s.gpa);
    CodecLE(b[4..8], s.size);
    CodecLE(b[8..12], s.kind);
    assert b == b[0..4] + b[4..8] + b[8..12];
    if b == EncodeSection(s) {
      assert b[0..4] == LE(4, s.gpa) && b[4..8] == LE(4, s.size) && b[8..12] == LE(4, s.kind);
    }
  }

  function SectionsAt(b: seq<byte>, n: nat): (sections: seq<MetadataSection>)
    requires 12 * n <= |b|
    ensures |sections| == n
  {
    seq(n, i requires 0 <= i < n => SectionAt(b, i))
  }

  lemma SectionAtOk(b: seq<byte>, i: nat)
    requires 12 * i + 12 <= |b|
    ensures SectionOk(SectionAt(b, i)) && EncodeSection(SectionAt(b, i)) == b[12 * i..12 * i + 12]
  {
    var s := b[12 * i..12 * i + 12];
    Widths();
    DecodeLE(s[0..4]);
    DecodeLE(s[4..8]);
    DecodeLE(s[8..12]);
    assert s == s[0..4] + s[4..8] + s[8..12];
  }

  lemma SectionAtCodec(b: seq<byte>, i: nat, s: MetadataSection)
    requires 12 * i + 12 <= |b| && SectionOk(s)
    ensures b[12 * i..12 * i + 12] == EncodeSection(s) <==> SectionAt(b, i) == s
  {
    var t := b[12 * i..12 * i + 12];
    assert t[0..12] == t;
    SectionCodec(s, t);
  }

  /** Sections one after the other. */
  ghost predicate Encoded(b: seq<byte>, sections: seq<MetadataSection>) {
    && 12 * |sections| <= |b|
    && forall i :: 0 <= i < |sections| ==>
        SectionOk(sections[i]) && b[12 * i..12 * i + 12] == EncodeSection(sections[i])
  }

  /** Reading a list of sections inverts writing it, and every run of bytes is such a list. */
  lemma SectionsCodec(b: seq<byte>, sections: seq<MetadataSection>)
    requires 12 * |sections| <= |b|
    ensures Encoded(b, sections) <==> SectionsAt(b, |sections|) == sections
  {
    forall i | 0 <= i < |sections|
      ensures SectionOk(sections[i]) && b[12 * i..12 * i + 12] == EncodeSection(sections[i]) <==>
                SectionAt(b, i) == sections[i]
    {
      SectionAtOk(b, i);
      if SectionOk(sections[i]) {
        SectionAtCodec(b, i, sections[i]);
      }
    }
    if SectionsAt(b, |sections|) == sections {
      forall i | 0 <= i < |sections|
        ensures SectionAt(b, i) == sections[i]
      {
        assert SectionsAt(b, |sections|)[i] == sections[i];
      }
    }
  }

  const ASEV: seq<byte> := [0x41, 0x53, 0x45, 0x56]

  lemma SectionsAtOk(b: seq<byte>, n: nat)
    requires 12 * n <= |b|
    ensures forall i :: 0 <= i < n ==> SectionOk(SectionsAt(b, n)[i])
  {
    forall i | 0 <= i < n
      ensures SectionOk(SectionsAt(b, n)[i])
    {
      SectionAtOk(b, i);
    }
  }

  function Sections(data: seq<byte>, table: Table): (r: ParseResult<seq<MetadataSection>>)
    ensures r.Parsed? ==> forall i :: 0 <= i < |r.value| ==> SectionOk(r.value[i])
  {
    if METADATA_GUID !in table then Parsed([])
    else if |table[METADATA_GUID]| < 4 then BadMetadata
    else SectionsFrom(data, |data| - FromLE(table[METADATA_GUID][..4]))
  }

  function SectionsFrom(data: seq<byte>, start: int): (r: ParseResult<seq<MetadataSection>>)
    requires start <= |data|
    ensures r.Parsed? ==> forall i :: 0 <= i < |r.value| ==> SectionOk(r.value[i])
  {
    if start < 0 || start + 16 > |data| || data[start..start + 4] != ASEV || FromLE(data[start + 8..start + 12]) != 1
    then BadMetadata
    else
      var end := start + FromLE(data[start + 4..start + 8]);
      var n := FromLE(data[start + 12..start + 16]);
      if end > |data| || end < start + 16 || 12 * n > end - (start + 16) then BadMetadata
      else
        SectionsAtOk(data[start + 16..end], n);
        Parsed(SectionsAt(data[start + 16..end], n))
  }

  function MetadataHeader(size: nat, n: nat): (h: seq<byte>)
    ensures |h| == 16
  {
    ASEV + LE(4, size) + LE(4, 1) + LE(4, n)
  }

  /** The metadata block as it is written: signature, size, version 1, number of sections, sections. */
  ghost predicate Metadata(data: seq<byte>, start: nat, size: nat, sections: seq<MetadataSection>) {
    && size < FOUR_GB && |sections| < FOUR_GB
    && 16 + 12 * |sections| <= size && start + size <= |data|
    && data[start..start + 16] == MetadataHeader(size, |sections|)
    && Encoded(data[start + 16..start + size], sections)
  }

  lemma HeaderCodec(h: seq<byte>, size: nat, n: nat)
    requires |h| == 16 && size < FOUR_GB && n < FOUR_GB
    ensures h == MetadataHeader(size, n)
       <==> h[0..4] == ASEV && FromLE(h[4..8]) == size && FromLE(h[8..12]) == 1 && FromLE(h[12..16]) == n
  {
    Widths();
    CodecLE(h[4..8], size);
    CodecLE(h[8..12], 1);
    CodecLE(h[12..16], n);
    assert h == h[0..4] + h[4..8] + h[8..12] + h[12..16];
    if h == MetadataHeader(size, n) {
      assert h[0..4] == ASEV && h[4..8] == LE(4, size) && h[8..12] == LE(4, 1) && h[12..16] == LE(4, n);
    }
  }

  lemma HeaderParts(data: seq<byte>, start: nat)
    requires start + 16 <= |data|
    ensures var h := data[start..start + 16];
            && h[0..4] == data[start..start + 4] && h[4..8] == data[start + 4..start + 8]
            && h[8..12] == data[start + 8..start + 12] && h[12..16] == data[start + 12..start + 16]
  {
    SliceSlice(data, start, start + 16, 0, 4);
    SliceSlice(data, start, start + 16, 4, 8);
    SliceSlice(data, start, start + 16, 8, 12);
    SliceSlice(data, start, start + 16, 12, 16);
  }

  lemma HeaderAt(data: seq<byte>, start: nat, size: nat, n: nat)
    requires start + 16 <= |data| && size < FOUR_GB && n < FOUR_GB
    ensures data[start..start + 16] == MetadataHeader(size, n)
       <==> data[start..start + 4] == ASEV && FromLE(data[start + 4..start + 8]) == size
            && FromLE(data[start + 8..start + 12]) == 1 && FromLE(data[start + 12..start + 16]) == n
  {
    HeaderParts(data, start);
    HeaderCodec(data[start..start + 16], size, n);
  }

  /** The sections are read off a position if they have been written there. */
  lemma SectionsRoundTrip(data: seq<byte>, start: nat, size: nat, sections: seq<MetadataSection>)
    requires Metadata(data, start, size, sections)
    ensures SectionsFrom(data, start) == Parsed(sections)
  {
    HeaderAt(data, start, size, |sections|);
    SectionsCodec(data[start + 16..start + size], sections);
  }

  /** And only then. */
  lemma SectionsWereWritten(data: seq<byte>, start: int) returns (size: nat)
    requires start <= |data| && SectionsFrom(data, start).Parsed?
    ensures start >= 0 && Metadata(data, start, size, SectionsFrom(data, start).value)
  {
    var sections := SectionsFrom(data, start).value;
    size := FromLE(data[start + 4..start + 8]);
    Widths();
    DecodeLE(data[start + 4..start + 8]);
    DecodeLE(data[start + 12..start + 16]);
    HeaderAt(data, start, size, |sections|);
    SectionsCodec(data[start + 16..start + size], sections);
  }

  // ---- The object ----

  class OVMF {
    const data: seq<byte>
    var gpa: nat
    var table: Table
    var metadataItems: seq<MetadataSection>

    constructor (data: seq<byte>)
      ensures this.data == data && gpa == 0 && table == map[] && metadataItems == []
    {
      this.data := data;
      gpa := 0;
      table := map[];
      metadataItems := [];
    }

    method ParseFooterTable() returns (result: ParseResult<()>)
      requires FooterFits(data) && table == map[]
      modifies this`table
      ensures Agrees(result, table, FooterTable(data))
    {
      var tableBytes := FindFooter();
      if tableBytes.None? {
        return Parsed(());
      }
      result := ParseEntries(tableBytes.value);
    }

    /** The first part of ParseFooterTable: locates the table. */
    method FindFooter() returns (tableBytes: Option<seq<byte>>)
      requires FooterFits(data)
      ensures tableBytes == if HasFooter(data) then Some(FooterBytes(data)) else None
    {
      var size := |data|;
      var startOfFooterTable := size - 32 - 18;
      if startOfFooterTable < 0 {
        return None;
      }
      var footerSize: int := FromLE(data[startOfFooterTable..][..2]);
      var footerGuid := GuidString(data[startOfFooterTable + 2..][..16]);
      if footerGuid != FOOTER_GUID {
        return None;
      }
      var tableSize := footerSize - 18;
      if tableSize < 0 {
        return None;
      }
      return Some(data[startOfFooterTable - tableSize..startOfFooterTable]);
    }

    /** The loop of ParseFooterTable: traverses the table from back to front. */
    method ParseEntries(footerTable: seq<byte>) returns (result: ParseResult<()>)
      requires table == map[]
      modifies this`table
      ensures Agrees(result, table, TableFrom(Split(footerTable), []))
    {
      var tableBytes := footerTable;
      ghost var entries: seq<Entry> := [];
      while |tableBytes| >= 18
        invariant TableFrom(Split(footerTable), []) == TableFrom(Split(tableBytes), entries)
        invariant table == TableOf(entries)
        decreases |tableBytes|
      {
        var tail := tableBytes[|tableBytes| - 18..];
        var entrySize := FromLE(tail[..2]);
        if entrySize < 18 {
          return BadEntrySize;
        }
        var entryGuid := GuidString(tableBytes[|tableBytes| - 16..]);
        var dataStart: int := |tableBytes| - entrySize;
        if dataStart < 0 {
          return PastTableStart;
        }
        ghost var entry := LastEntry(tableBytes);
        EntryInFront(tableBytes, entries);
        OneMoreInTable(entry, entries);
        table := table[entryGuid := tableBytes[dataStart..|tableBytes| - 18]];
        entries := [entry] + entries;
        tableBytes := tableBytes[..dataStart];
      }
      assert [] + entries == entries;
      return Parsed(());
    }

    method ParseSEVMetadata() returns (result: ParseResult<()>)
      requires metadataItems == []
      modifies this`metadataItems
      ensures result.Parsed? <==> Sections(data, table).Parsed?
      ensures result.Parsed? ==> metadataItems == Sections(data, table).value
    {
      if METADATA_GUID !in table {
        return Parsed(());
      }
      var entry := table[METADATA_GUID];
      if |entry| < 4 {
        return BadMetadata;
      }
      var start := |data| - FromLE(entry[..4]);
      if start < 0 || start + 16 > |data| {
        return BadMetadata;
      }
      if data[start..start + 4] != ASEV {
        return BadMetadata;
      }
      var mdSize := FromLE(data[start + 4..start + 8]);
      var version := FromLE(data[start + 8..start + 12]);
      var numItems := FromLE(data[start + 12..start + 16]);
      if version != 1 {
        return BadMetadata;
      }
      var itemsStart := start + 16;
      var itemsEnd := start + mdSize;
      if itemsEnd > |data| || itemsEnd < itemsStart {
        return BadMetadata;
      }
      var items := data[itemsStart..itemsEnd];
      for i := 0 to numItems
        invariant 12 * i <= |items|
        invariant metadataItems == SectionsAt(items, i)
      {
        var off := i * 12;
        if off + 12 > |items| {
          return BadMetadata;
        }
        metadataItems := metadataItems + [SectionAt(items, i)];
      }
      return Parsed(());
    }

    method HasMetadataSection(kind: nat) returns (found: bool)
      ensures found <==> exists i :: 0 <= i < |metadataItems| && metadataItems[i].kind == kind
    {
      for i := 0 to |metadataItems|
        invariant forall j :: 0 <= j < i ==> metadataItems[j].kind != kind
      {
        if metadataItems[i].kind == kind {
          return true;
        }
      }
      return false;
    }
  }

  ghost predicate Agrees(result: ParseResult<()>, table: Table, expected: ParseResult<Table>) {
    && (result.Parsed? ==> expected == Parsed(table))
    && (result.BadEntrySize? ==> expected.BadEntrySize?)
    && (result.PastTableStart? ==> expected.PastTableStart?)
    && (result.BadMetadata? ==> expected.BadMetadata?)
  }

  lemma EntryInFront(b: seq<byte>, entries: seq<Entry>)
    requires |b| >= 18 && 18 <= FromLE(b[|b| - 18..][..2]) <= |b|
    ensures TableFrom(Split(b), entries)
         == TableFrom(Split(b[..|b| - FromLE(b[|b| - 18..][..2])]), [LastEntry(b)] + entries)
  {
    var e := LastEntry(b);
    var front := Split(b[..|b| - FromLE(b[|b| - 18..][..2])]);
    SplitLast(b, e, front);
    MovedEntry(front, e, entries);
  }

  lemma SplitLast(b: seq<byte>, e: Entry, front: ParseResult<Footer>)
    requires |b| >= 18 && 18 <= FromLE(b[|b| - 18..][..2]) <= |b|
    requires e == LastEntry(b) && front == Split(b[..|b| - FromLE(b[|b| - 18..][..2])])
    ensures Split(b) == if front.Parsed? then Parsed(front.value.(entries := front.value.entries + [e])) else front
  {
  }

  lemma MovedEntry(front: ParseResult<Footer>, e: Entry, entries: seq<Entry>)
    ensures TableFrom(if front.Parsed? then Parsed(front.value.(entries := front.value.entries + [e]))
                      else front, entries)
         == TableFrom(front, [e] + entries)
  {
    if front.Parsed? {
      Associative(front.value.entries, [e], entries);
    }
  }

  lemma OneMoreInTable(e: Entry, entries: seq<Entry>)
    ensures TableOf([e] + entries) == TableOf(entries)[GuidString(e.guid) := e.data]
  {
    assert ([e] + entries)[1..] == entries;
  }

  /** A firmware image as the measurement uses it. */
  datatype Firmware = Firmware(table: Table, sections: seq<MetadataSection>)

  function ParseFirmware(data: seq<byte>): (fw: Option<Firmware>)
    requires FooterFits(data)
    ensures fw.Some? ==> forall i :: 0 <= i < |fw.value.sections| ==> SectionOk(fw.value.sections[i])
  {
    match FooterTable(data)
    case Parsed(table) =>
      (match Sections(data, table)
       case Parsed(sections) => Some(Firmware(table, sections))
       case _ => None)
    case _ => None
  }

  /** The address of the first byte of an image that ends at 4 GB. */
  function ImageStart(data: seq<byte>): (r: nat) {
    (FOUR_GB - |data|) % TWO_TO_64
  }

  method NewOVMF(data: seq<byte>) returns (o: OVMF?)
    requires FooterFits(data)
    ensures o != null <==> ParseFirmware(data).Some?
    ensures o != null ==>
              && fresh(o) && o.data == data && o.gpa == ImageStart(data)
              && Firmware(o.table, o.metadataItems) == ParseFirmware(data).value
  {
    var image := new OVMF(data);
    var result := image.ParseFooterTable();
    if !result.Parsed? {
      return null;
    }
    result := image.ParseSEVMetadata();
    if !result.Parsed? {
      return null;
    }
    image.gpa := (FOUR_GB - |data|) % TWO_TO_64;
    return image;
  }

  /** A 32-bit number at the start of a table entry. */
  function Word(table: Table, guid: string): (w: Option<nat>)
    ensures w.Some? ==> w.value < FOUR_GB
  {
    if guid !in table || |table[guid]| < 4 then None
    else
      Widths();
      DecodeLE(table[guid][..4]);
      Some(FromLE(table[guid][..4]))
  }

  function SEVHashesTableGPA(fw: Firmware): (w: Option<nat>)
    ensures w.Some? ==> w.value < FOUR_GB
  {
    Word(fw.table, HASH_TABLE_GUID)
  }

  function SEVESResetEIP(fw: Firmware): (w: Option<nat>)
    ensures w.Some? ==> w.value < FOUR_GB
  {
    Word(fw.table, RESET_BLOCK_GUID)
  }
}

/** The table of kernel, initrd and command line hashes that QEMU puts into guest memory. */
module SevHashes {
  import opened Ideal
  import opened LittleEndian
  import opened Sequences
  import opened Guids
  import opened Octets

  type Guid = g: seq<byte> | |g| == 16 witness seq(16, _ => 0)

  datatype EntryGuids = EntryGuids(header: Guid, kernel: Guid, initrd: Guid, cmdline: Guid)

  const ENTRY_SIZE: nat := 50
  const TABLE_SIZE: nat := 168
  const PADDED_TABLE_SIZE: nat := 176

  function TheGuids(): (r: EntryGuids) {
    EntryGuids([0x06, 0xd6, 0x38, 0x94, 0x22, 0x4f, 0xc9, 0x4c, 0xb4, 0x79, 0xa7, 0x93, 0xd4, 0x11, 0xfd, 0x21],
               [0x37, 0x94, 0xe7, 0x4d, 0xd2, 0xab, 0x7f, 0x42, 0xb8, 0x35, 0xd5, 0xb1, 0x72, 0xd2, 0x04, 0x5b],
               [0x31, 0xf7, 0xba, 0x44, 0x2f, 0x3a, 0xd7, 0x4b, 0x9a, 0xf1, 0x41, 0xe2, 0x91, 0x69, 0x78, 0x1d],
               [0xd8, 0x2d, 0xd0, 0x97, 0x20, 0xbd, 0x94, 0x4c, 0xaa, 0x78, 0xe7, 0x71, 0x4d, 0x36, 0xab, 0x2a])
  }

  method TableHeaderGuid() returns (g: Guid)
    ensures g == TheGuids().header
  {
    GuidText(TheGuids().header, "9438d606", "4f22", "4cc9", "b479", "a793d411fd21");
    g := GuidBytesLE(Dashed("9438d606", "4f22", "4cc9", "b479", "a793d411fd21"));
  }

  method KernelEntryGuid() returns (g: Guid)
    ensures g == TheGuids().kernel
  {
    GuidText(TheGuids().kernel, "4de79437", "abd2", "427f", "b835", "d5b172d2045b");
    g := GuidBytesLE(Dashed("4de79437", "abd2", "427f", "b835", "d5b172d2045b"));
  }

  method InitrdEntryGuid() returns (g: Guid)
    ensures g == TheGuids().initrd
  {
    GuidText(TheGuids().initrd, "44baf731", "3a2f", "4bd7", "9af1", "41e29169781d");
    g := GuidBytesLE(Dashed("44baf731", "3a2f", "4bd7", "9af1", "41e29169781d"));
  }

  method CmdlineEntryGuid() returns (g: Guid)
    ensures g == TheGuids().cmdline
  {
    GuidText(TheGuids().cmdline, "97d02dd8", "bd20", "4c94", "aa78", "e7714d36ab2a");
    g := GuidBytesLE(Dashed("97d02dd8", "bd20", "4c94", "aa78", "e7714d36ab2a"));
  }

  datatype Hashes = Hashes(kernel: Hash, initrd: Hash, cmdline: Hash)

  /** What is loaded into the guest; no initrd counts as an empty one. */
  datatype Boot = Boot(kernel: Bytes, initrd: Bytes, cmdline: Bytes)

  /** The command line is hashed with its terminating zero. */
  function HashesOf(boot: Boot): (r: Hashes) {
    Hashes(Digest(boot.kernel), Digest(boot.initrd), Digest(boot.cmdline + [Raw(0)]))
  }

  lemma HashesBind(a: Boot, b: Boot)
    requires HashesOf(a) == HashesOf(b)
    ensures a == b
  {
    DigestInjective(a.kernel, b.kernel);
    DigestInjective(a.initrd, b.initrd);
    DigestInjective(a.cmdline + [Raw(0)], b.cmdline + [Raw(0)]);
    assert a.cmdline == (a.cmdline + [Raw(0)])[..|a.cmdline|];
    assert b.cmdline == (b.cmdline + [Raw(0)])[..|b.cmdline|];
  }

  /** GUID, length, hash. */
  function EntryOf(guid: Guid, hash: Hash): (r: Bytes)
    ensures |r| == ENTRY_SIZE
  {
    Plain(guid) + (Plain(LE(2, ENTRY_SIZE)) + hash)
  }

  /** The packed table, entry after entry, without its padding. */
  function TableOf(g: EntryGuids, h: Hashes): (r: Bytes)
    ensures |r| == TABLE_SIZE
  {
    HeaderOf(g.header) + EntryOf(g.cmdline, h.cmdline) + EntryOf(g.initrd, h.initrd) + EntryOf(g.kernel, h.kernel)
  }

  method WriteEntry(b: array<Octet>, off: nat, guid: Guid, hash: Hash, ghost front: Bytes)
    requires off + ENTRY_SIZE <= b.Length && |front| == off && Filled(b[..], front)
    modifies b
    ensures Filled(b[..], front + EntryOf(guid, hash))
  {
    var length := Plain(LE(2, ENTRY_SIZE));
    CopyTo(b, off, Plain(guid), front);
    CopyTo(b, off + 16, length, front + Plain(guid));
    CopyTo(b, off + 18, hash, front + Plain(guid) + length);
    Associative(front + Plain(guid), length, hash);
    Associative(front, Plain(guid), length + hash);
  }

  /** The header covers the table without its padding. */
  function HeaderOf(guid: Guid): (r: Bytes)
    ensures |r| == 18
  {
    Plain(guid) + Plain(LE(2, TABLE_SIZE))
  }

  method WriteHeader(b: array<Octet>, guid: Guid)
    requires b.Length >= 18 && Filled(b[..], [])
    modifies b
    ensures Filled(b[..], HeaderOf(guid))
  {
    CopyTo(b, 0, Plain(guid), []);
    assert [] + Plain(guid) == Plain(guid);
    CopyTo(b, 16, Plain(LE(2, TABLE_SIZE)), Plain(guid));
  }

  /** The table, padded to 176 bytes. */
  method ConstructTable(h: Hashes) returns (table: Bytes)
    ensures table == TableOf(TheGuids(), h) + Zeros(PADDED_TABLE_SIZE - TABLE_SIZE)
  {
    var headerGuid := TableHeaderGuid();
    var kernelGuid := KernelEntryGuid();
    var initrdGuid := InitrdEntryGuid();
    var cmdlineGuid := CmdlineEntryGuid();
    table := FillTable(EntryGuids(headerGuid, kernelGuid, initrdGuid, cmdlineGuid), h);
  }

  method FillTable(g: EntryGuids, h: Hashes) returns (table: Bytes)
    ensures table == TableOf(g, h) + Zeros(PADDED_TABLE_SIZE - TABLE_SIZE)
  {
    var buf := new Octet[PADDED_TABLE_SIZE](_ => Raw(0));
    assert buf[..] == [] + Zeros(PADDED_TABLE_SIZE);
    WriteHeader(buf, g.header);
    WriteEntries(buf, g, h);
    table := buf[..];
  }

  method WriteEntries(buf: array<Octet>, g: EntryGuids, h: Hashes)
    requires buf.Length == PADDED_TABLE_SIZE && Filled(buf[..], HeaderOf(g.header))
    modifies buf
    ensures Filled(buf[..], TableOf(g, h))
  {
    ghost var front := HeaderOf(g.header);
    WriteEntry(buf, 18, g.cmdline, h.cmdline, front);
    front := front + EntryOf(g.cmdline, h.cmdline);
    WriteEntry(buf, 18 + ENTRY_SIZE, g.initrd, h.initrd, front);
    front := front + EntryOf(g.initrd, h.initrd);
    WriteEntry(buf, 18 + 2 * ENTRY_SIZE, g.kernel, h.kernel, front);
  }

  /** The page around the table; what does not fit behind the offset is cut off. */
  function PageWith(table: Bytes, offsetInPage: nat): (page: Bytes)
    requires offsetInPage < PAGE_SIZE
    ensures |page| == PAGE_SIZE
  {
    var n := if |table| <= PAGE_SIZE - offsetInPage then |table| else PAGE_SIZE - offsetInPage;
    Zeros(offsetInPage) + table[..n] + Zeros(PAGE_SIZE - offsetInPage - n)
  }

  function PageOf(h: Hashes, offsetInPage: nat): (page: Bytes)
    requires offsetInPage < PAGE_SIZE
    ensures |page| == PAGE_SIZE
  {
    PageWith(TableOf(TheGuids(), h) + Zeros(PADDED_TABLE_SIZE - TABLE_SIZE), offsetInPage)
  }

  method ConstructPage(h: Hashes, offsetInPage: nat) returns (page: Bytes)
    requires offsetInPage < PAGE_SIZE
    ensures page == PageOf(h, offsetInPage)
  {
    var table := ConstructTable(h);
    page := PlaceInPage(table, offsetInPage);
  }

  method PlaceInPage(table: Bytes, offsetInPage: nat) returns (page: Bytes)
    requires offsetInPage < PAGE_SIZE
    ensures page == PageWith(table, offsetInPage)
  {
    var b := new Octet[PAGE_SIZE](_ => Raw(0));
    var n := if |table| <= PAGE_SIZE - offsetInPage then |table| else PAGE_SIZE - offsetInPage;
    assert Filled(b[..], Zeros(offsetInPage));
    CopyTo(b, offsetInPage, table[..n], Zeros(offsetInPage));
    page := b[..];
  }

  lemma InEntry(front: Bytes, guid: Guid, hash: Hash, rest: Bytes)
    ensures (front + EntryOf(guid, hash) + rest)[|front| + 18..|front| + 50] == hash
  {
    var prefix := front + (Plain(guid) + Plain(LE(2, ENTRY_SIZE)));
    assert front + EntryOf(guid, hash) + rest == prefix + (hash + rest);
    Middle(prefix, hash, rest);
  }

  /** The hashes are found at fixed places of the table. */
  lemma HashesInTable(g: EntryGuids, h: Hashes)
    ensures TableOf(g, h)[36..68] == h.cmdline
    ensures TableOf(g, h)[86..118] == h.initrd
    ensures TableOf(g, h)[136..168] == h.kernel
  {
    var header := HeaderOf(g.header);
    var e1, e2, e3 := EntryOf(g.cmdline, h.cmdline), EntryOf(g.initrd, h.initrd), EntryOf(g.kernel, h.kernel);
    InEntry(header, g.cmdline, h.cmdline, e2 + e3);
    Associative(header + e1, e2, e3);
    InEntry(header + e1, g.initrd, h.initrd, e3);
    InEntry(header + e1 + e2, g.kernel, h.kernel, []);
    assert header + e1 + e2 + e3 + [] == header + e1 + e2 + e3;
  }

  /** Where the page has room for the whole table, it shows all three hashes. */
  lemma PageBinds(a: Hashes, b: Hashes, offsetInPage: nat)
    requires offsetInPage + TABLE_SIZE <= PAGE_SIZE
    requires PageOf(a, offsetInPage) == PageOf(b, offsetInPage)
    ensures a == b
  {
    var g := TheGuids();
    TableInPage(TableOf(g, a), offsetInPage);
    TableInPage(TableOf(g, b), offsetInPage);
    HashesInTable(g, a);
    HashesInTable(g, b);
  }

  lemma TableInPage(table: Bytes, offsetInPage: nat)
    requires |table| == TABLE_SIZE && offsetInPage + TABLE_SIZE <= PAGE_SIZE
    ensures PageWith(table + Zeros(PADDED_TABLE_SIZE - TABLE_SIZE),
                     offsetInPage)[offsetInPage..offsetInPage + TABLE_SIZE] == table
  {
  }
}

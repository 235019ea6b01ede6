/** The save-area page of a vCPU, written field by field. */
module Vmsa {
  import opened Ideal
  import opened LittleEndian
  import opened Octets

  /** A number of `width` bytes at an offset of the page. */
  datatype Field = Field(off: nat, width: nat, value: nat)

  ghost predicate Covers(f: Field, k: nat) {
    f.off <= k < f.off + f.width
  }

  /** The page that holds these fields, and zeros elsewhere. */
  ghost predicate PageHolds(page: seq<byte>, fields: set<Field>) {
    && |page| == PAGE_SIZE
    && (forall f :: f in fields ==>
        f.off + f.width <= PAGE_SIZE && page[f.off..f.off + f.width] == LE(f.width, f.value))
    && (forall k :: 0 <= k < PAGE_SIZE && (forall f :: f in fields ==> !Covers(f, k)) ==> page[k] == 0)
  }

  /** All fields end at or before an offset. */
  ghost predicate Below(fields: set<Field>, end: nat) {
    forall f :: f in fields ==> f.off + f.width <= end
  }

  ghost predicate Apart(f: Field, g: Field) {
    f.off + f.width <= g.off || g.off + g.width <= f.off
  }

  /** No two fields overlap. */
  ghost predicate Disjoint(fields: set<Field>) {
    forall f, g :: f in fields && g in fields ==> f == g || Apart(f, g)
  }

  ghost predicate ZeroFrom(page: seq<byte>, end: nat) {
    forall k :: end <= k < |page| ==> page[k] == 0
  }

  /** The page so far: fields below `end`, nothing at or above it. */
  ghost predicate Written(page: seq<byte>, fields: set<Field>, end: nat) {
    PageHolds(page, fields) && Disjoint(fields) && Below(fields, end) && ZeroFrom(page, end)
  }

  /** A write at or above the end of what has been written adds a field. */
  lemma WriteField(page: seq<byte>, page': seq<byte>, fields: set<Field>, end: nat, f: Field)
    requires Written(page, fields, end) && end <= f.off && f.off + f.width <= PAGE_SIZE
    requires |page'| == PAGE_SIZE && page'[f.off..f.off + f.width] == LE(f.width, f.value)
    requires forall k :: 0 <= k < PAGE_SIZE && !Covers(f, k) ==> page'[k] == page[k]
    ensures Written(page', fields + {f}, f.off + f.width)
  {
    forall g | g in fields
      ensures page'[g.off..g.off + g.width] == LE(g.width, g.value)
    {
      assert g.off + g.width <= end;
      assert page'[g.off..g.off + g.width] == page[g.off..g.off + g.width];
    }
    forall k | 0 <= k < PAGE_SIZE && (forall g :: g in fields + {f} ==> !Covers(g, k))
      ensures page'[k] == 0
    {
      assert !Covers(f, k);
    }
  }

  /** Writes a number into the page. */
  method Put(b: array<byte>, off: nat, width: nat, value: nat, ghost fields: set<Field>, ghost end: nat)
    requires b.Length == PAGE_SIZE && Written(b[..], fields, end)
    requires end <= off && off + width <= PAGE_SIZE
    modifies b
    ensures Written(b[..], fields + {Field(off, width, value)}, off + width)
  {
    ghost var before := b[..];
    var bytes := LE(width, value);
    for i := 0 to width
      invariant forall k :: 0 <= k < PAGE_SIZE ==> b[k] == if off <= k < off + i then bytes[k - off] else before[k]
    {
      b[off + i] := bytes[i];
    }
    assert b[..][off..off + width] == bytes;
    WriteField(before, b[..], fields, end, Field(off, width, value));
  }

  ghost function Segment(off: nat, selector: nat, attrib: nat, limit: nat, segmentBase: nat): (r: set<Field>) {
    {Field(off, 2, selector), Field(off + 2, 2, attrib), Field(off + 4, 4, limit), Field(off + 8, 8, segmentBase)}
  }

  method VmcbSeg(b: array<byte>, off: nat, selector: nat, attrib: nat, limit: nat, segmentBase: nat,
                 ghost fields: set<Field>, ghost end: nat)
    requires b.Length == PAGE_SIZE && Written(b[..], fields, end)
    requires end <= off && off + 16 <= PAGE_SIZE
    modifies b
    ensures Written(b[..], fields + Segment(off, selector, attrib, limit, segmentBase), off + 16)
  {
    ghost var fields' := fields;
    Put(b, off, 2, selector, fields', end);
    fields' := fields' + {Field(off, 2, selector)};
    Put(b, off + 2, 2, attrib, fields', off + 2);
    fields' := fields' + {Field(off + 2, 2, attrib)};
    Put(b, off + 4, 4, limit, fields', off + 4);
    fields' := fields' + {Field(off + 4, 4, limit)};
    Put(b, off + 8, 8, segmentBase, fields', off + 8);
    fields' := fields' + {Field(off + 8, 8, segmentBase)};
    assert fields' == fields + Segment(off, selector, attrib, limit, segmentBase);
  }

  /** The ten segments, in the order of the page. The code segment starts at the high half of the
      reset address. */
  ghost function Segments(eip: nat): (r: set<Field>) {
    LowSegments(eip) + HighSegments()
  }

  ghost function LowSegments(eip: nat): (r: set<Field>) {
    Segment(0x000, 0, 0x93, 0xffff, 0)
    + CodeSegment(eip)
    + Segment(0x020, 0, 0x93, 0xffff, 0)
    + Segment(0x030, 0, 0x93, 0xffff, 0)
    + Segment(0x040, 0, 0x93, 0xffff, 0)
  }

  ghost function CodeSegment(eip: nat): (r: set<Field>) {
    Segment(0x010, 0xf000, 0x9b, 0xffff, eip - eip % 0x1_0000)
  }

  ghost function HighSegments(): (r: set<Field>) {
    Segment(0x050, 0, 0x93, 0xffff, 0)
    + Segment(0x060, 0, 0, 0xffff, 0)
    + Segment(0x070, 0, 0x82, 0xffff, 0)
    + Segment(0x080, 0, 0, 0xffff, 0)
    + Segment(0x090, 0, 0x8b, 0xffff, 0)
  }

  ghost function ControlRegisters(eip: nat): (r: set<Field>) {
    {Field(0x0d0, 8, 0x1000), Field(0x148, 8, 0x40), Field(0x150, 8, 0), Field(0x158, 8, 0x10),
     Field(0x160, 8, 0x400), Field(0x168, 8, 0xffff0ff0), Field(0x170, 8, 0x2), Field(0x178, 8, eip % 0x1_0000)}
  }

  ghost function OtherRegisters(sevFeatures: nat, vcpuSig: nat): (r: set<Field>) {
    {Field(0x268, 8, 0x7040600070406), Field(0x310, 8, vcpuSig), Field(0x3b0, 8, sevFeatures), Field(0x3e8, 8, 0x1),
     Field(0x408, 4, 0x1f80), Field(0x410, 2, 0x37f)}
  }

  ghost function Fields(eip: nat, sevFeatures: nat, vcpuSig: nat): (r: set<Field>) {
    Segments(eip) + ControlRegisters(eip) + OtherRegisters(sevFeatures, vcpuSig)
  }

  method PutSegments(b: array<byte>, eip: nat)
    requires b.Length == PAGE_SIZE && Written(b[..], {}, 0)
    modifies b
    ensures Written(b[..], Segments(eip), 0x0a0)
  {
    PutLowSegments(b, eip);
    PutHighSegments(b, LowSegments(eip));
  }

  method PutLowSegments(b: array<byte>, eip: nat)
    requires b.Length == PAGE_SIZE && Written(b[..], {}, 0)
    modifies b
    ensures Written(b[..], LowSegments(eip), 0x050)
  {
    ghost var fields := Segment(0x000, 0, 0x93, 0xffff, 0);
    VmcbSeg(b, 0x000, 0, 0x93, 0xffff, 0, {}, 0);
    assert fields == {} + Segment(0x000, 0, 0x93, 0xffff, 0);
    VmcbSeg(b, 0x010, 0xf000, 0x9b, 0xffff, eip - eip % 0x1_0000, fields, 0x010);
    fields := fields + CodeSegment(eip);
    VmcbSeg(b, 0x020, 0, 0x93, 0xffff, 0, fields, 0x020);
    fields := fields + Segment(0x020, 0, 0x93, 0xffff, 0);
    VmcbSeg(b, 0x030, 0, 0x93, 0xffff, 0, fields, 0x030);
    fields := fields + Segment(0x030, 0, 0x93, 0xffff, 0);
    VmcbSeg(b, 0x040, 0, 0x93, 0xffff, 0, fields, 0x040);
  }

  method PutHighSegments(b: array<byte>, ghost low: set<Field>)
    requires b.Length == PAGE_SIZE && Written(b[..], low, 0x050)
    modifies b
    ensures Written(b[..], low + HighSegments(), 0x0a0)
  {
    ghost var fields := low;
    VmcbSeg(b, 0x050, 0, 0x93, 0xffff, 0, fields, 0x050);
    fields := fields + Segment(0x050, 0, 0x93, 0xffff, 0);
    VmcbSeg(b, 0x060, 0, 0, 0xffff, 0, fields, 0x060);
    fields := fields + Segment(0x060, 0, 0, 0xffff, 0);
    VmcbSeg(b, 0x070, 0, 0x82, 0xffff, 0, fields, 0x070);
    fields := fields + Segment(0x070, 0, 0x82, 0xffff, 0);
    VmcbSeg(b, 0x080, 0, 0, 0xffff, 0, fields, 0x080);
    fields := fields + Segment(0x080, 0, 0, 0xffff, 0);
    VmcbSeg(b, 0x090, 0, 0x8b, 0xffff, 0, fields, 0x090);
    fields := fields + Segment(0x090, 0, 0x8b, 0xffff, 0);
    assert fields == low + HighSegments();
  }

  method PutControlRegisters(b: array<byte>, eip: nat, ghost fields: set<Field>)
    requires b.Length == PAGE_SIZE && Written(b[..], fields, 0x0a0)
    modifies b
    ensures Written(b[..], fields + ControlRegisters(eip), 0x180)
  {
    ghost var fs := fields;
    Put(b, 0x0d0, 8, 0x1000, fs, 0x0a0);
    fs := fs + {Field(0x0d0, 8, 0x1000)};
    Put(b, 0x148, 8, 0x40, fs, 0x0d8);
    fs := fs + {Field(0x148, 8, 0x40)};
    Put(b, 0x150, 8, 0, fs, 0x150);
    fs := fs + {Field(0x150, 8, 0)};
    Put(b, 0x158, 8, 0x10, fs, 0x158);
    fs := fs + {Field(0x158, 8, 0x10)};
    Put(b, 0x160, 8, 0x400, fs, 0x160);
    fs := fs + {Field(0x160, 8, 0x400)};
    Put(b, 0x168, 8, 0xffff0ff0, fs, 0x168);
    fs := fs + {Field(0x168, 8, 0xffff0ff0)};
    Put(b, 0x170, 8, 0x2, fs, 0x170);
    fs := fs + {Field(0x170, 8, 0x2)};
    Put(b, 0x178, 8, eip % 0x1_0000, fs, 0x178);
    fs := fs + {Field(0x178, 8, eip % 0x1_0000)};
    assert fs == fields + ControlRegisters(eip);
  }

  method PutOtherRegisters(b: array<byte>, sevFeatures: nat, vcpuSig: nat, ghost fields: set<Field>)
    requires b.Length == PAGE_SIZE && Written(b[..], fields, 0x180)
    modifies b
    ensures Written(b[..], fields + OtherRegisters(sevFeatures, vcpuSig), 0x412)
  {
    ghost var fs := fields;
    Put(b, 0x268, 8, 0x7040600070406, fs, 0x180);
    fs := fs + {Field(0x268, 8, 0x7040600070406)};
    Put(b, 0x310, 8, vcpuSig, fs, 0x270);
    fs := fs + {Field(0x310, 8, vcpuSig)};
    Put(b, 0x3b0, 8, sevFeatures, fs, 0x318);
    fs := fs + {Field(0x3b0, 8, sevFeatures)};
    Put(b, 0x3e8, 8, 0x1, fs, 0x3b8);
    fs := fs + {Field(0x3e8, 8, 0x1)};
    Put(b, 0x408, 4, 0x1f80, fs, 0x3f0);
    fs := fs + {Field(0x408, 4, 0x1f80)};
    Put(b, 0x410, 2, 0x37f, fs, 0x40c);
    fs := fs + {Field(0x410, 2, 0x37f)};
    assert fs == fields + OtherRegisters(sevFeatures, vcpuSig);
  }

  method BuildVMSASaveArea(eip: nat, sevFeatures: nat, vcpuSig: nat) returns (page: seq<byte>)
    ensures PageHolds(page, Fields(eip, sevFeatures, vcpuSig)) && Disjoint(Fields(eip, sevFeatures, vcpuSig))
    ensures page == SaveArea(eip, sevFeatures, vcpuSig)
  {
    var b := new byte[PAGE_SIZE](_ => 0);
    PutSegments(b, eip);
    PutControlRegisters(b, eip, Segments(eip));
    PutOtherRegisters(b, sevFeatures, vcpuSig, Segments(eip) + ControlRegisters(eip));
    page := b[..];
    PageIsDetermined(page, Fields(eip, sevFeatures, vcpuSig));
  }

  // ---- The page as a function of its fields ----

  ghost function ByteOf(fields: set<Field>, k: nat): (r: byte) {
    if f :| f in fields && Covers(f, k) then ByteAt(f.value, k - f.off) else 0
  }

  ghost function PageOf(fields: set<Field>): (r: seq<byte>) {
    seq(PAGE_SIZE, k requires 0 <= k < PAGE_SIZE => ByteOf(fields, k))
  }

  ghost function SaveArea(eip: nat, sevFeatures: nat, vcpuSig: nat): (page: seq<byte>)
    ensures |page| == PAGE_SIZE
  {
    PageOf(Fields(eip, sevFeatures, vcpuSig))
  }

  lemma ByteIsDetermined(page: seq<byte>, fields: set<Field>, k: nat)
    requires PageHolds(page, fields) && k < PAGE_SIZE
    ensures page[k] == ByteOf(fields, k)
  {
    if f :| f in fields && Covers(f, k) {
      var g :| g in fields && Covers(g, k) && ByteOf(fields, k) == ByteAt(g.value, k - g.off);
      assert page[k] == page[g.off..g.off + g.width][k - g.off] == LE(g.width, g.value)[k - g.off];
    }
  }

  /** The fields determine the page. */
  lemma PageIsDetermined(page: seq<byte>, fields: set<Field>)
    requires PageHolds(page, fields)
    ensures page == PageOf(fields)
  {
    forall k | 0 <= k < PAGE_SIZE
      ensures page[k] == ByteOf(fields, k)
    {
      ByteIsDetermined(page, fields, k);
    }
  }

  lemma FieldOfPage(fields: set<Field>, f: Field)
    requires f in fields && f.off + f.width <= PAGE_SIZE
    requires forall g :: g in fields ==> g == f || Apart(f, g)
    ensures PageOf(fields)[f.off..f.off + f.width] == LE(f.width, f.value)
  {
    forall k | f.off <= k < f.off + f.width
      ensures ByteOf(fields, k) == ByteAt(f.value, k - f.off)
    {
      assert Covers(f, k);
      var g :| g in fields && Covers(g, k) && ByteOf(fields, k) == ByteAt(g.value, k - g.off);
    }
  }

  predicate Bits32(v: nat) {
    v < 0x1_0000_0000
  }

  predicate Bits64(v: nat) {
    v < 0x1_0000_0000_0000_0000
  }

  ghost predicate Within(fields: set<Field>, start: nat, end: nat) {
    forall g :: g in fields ==> start <= g.off && g.off + g.width <= end
  }

  lemma SegmentWithin(off: nat, selector: nat, attrib: nat, limit: nat, segmentBase: nat)
    ensures Within(Segment(off, selector, attrib, limit, segmentBase), off, off + 16)
  {
  }

  lemma LowSegmentsAround(eip: nat, g: Field)
    requires g in LowSegments(eip)
    ensures g.off + g.width <= 0x050
    ensures g.off + g.width <= 0x010 || g in CodeSegment(eip) || g.off >= 0x020
  {
    SegmentWithin(0x000, 0, 0x93, 0xffff, 0);
    SegmentWithin(0x010, 0xf000, 0x9b, 0xffff, eip - eip % 0x1_0000);
    SegmentWithin(0x020, 0, 0x93, 0xffff, 0);
    SegmentWithin(0x030, 0, 0x93, 0xffff, 0);
    SegmentWithin(0x040, 0, 0x93, 0xffff, 0);
  }

  lemma HighSegmentsAround()
    ensures Within(HighSegments(), 0x050, 0x0a0)
  {
    SegmentWithin(0x050, 0, 0x93, 0xffff, 0);
    SegmentWithin(0x060, 0, 0, 0xffff, 0);
    SegmentWithin(0x070, 0, 0x82, 0xffff, 0);
    SegmentWithin(0x080, 0, 0, 0xffff, 0);
    SegmentWithin(0x090, 0, 0x8b, 0xffff, 0);
  }

  lemma RegistersAround(eip: nat, sevFeatures: nat, vcpuSig: nat)
    ensures Within(ControlRegisters(eip), 0x0d0, 0x180) && Within(OtherRegisters(sevFeatures, vcpuSig), 0x268, 0x412)
  {
  }

  /** The field at one place of the page is found there again. */
  lemma FieldAt(eip: nat, sevFeatures: nat, vcpuSig: nat, f: Field)
    requires f.width == 8 && Bits64(f.value)
    requires || (f in CodeSegment(eip) && forall g :: g in CodeSegment(eip) ==> g == f || Apart(f, g))
             || (f in ControlRegisters(eip) && forall g :: g in ControlRegisters(eip) ==> g == f || Apart(f, g))
             || (f in OtherRegisters(sevFeatures, vcpuSig) && forall g :: g in OtherRegisters(sevFeatures, vcpuSig) ==>
                 g == f || Apart(f, g))
    ensures f.off + 8 <= PAGE_SIZE && FromLE(SaveArea(eip, sevFeatures, vcpuSig)[f.off..f.off + 8]) == f.value
  {
    var fields := Fields(eip, sevFeatures, vcpuSig);
    SegmentWithin(0x010, 0xf000, 0x9b, 0xffff, eip - eip % 0x1_0000);
    RegistersAround(eip, sevFeatures, vcpuSig);
    HighSegmentsAround();
    assert CodeSegment(eip) <= LowSegments(eip);
    forall g | g in fields
      ensures g == f || Apart(f, g)
    {
      if g in LowSegments(eip) {
        LowSegmentsAround(eip, g);
      }
    }
    FieldOfPage(fields, f);
    Widths();
    EncodeLE(8, f.value);
  }

  lemma CodeSegmentBase(eip: nat, sevFeatures: nat, vcpuSig: nat)
    requires Bits32(eip)
    ensures FromLE(SaveArea(eip, sevFeatures, vcpuSig)[0x018..0x020]) == eip - eip % 0x1_0000
  {
    FieldAt(eip, sevFeatures, vcpuSig, Field(0x018, 8, eip - eip % 0x1_0000));
  }

  lemma InstructionPointer(eip: nat, sevFeatures: nat, vcpuSig: nat)
    ensures FromLE(SaveArea(eip, sevFeatures, vcpuSig)[0x178..0x180]) == eip % 0x1_0000
  {
    var low := eip % 0x1_0000;
    assert Bits64(low);
    var f := Field(0x178, 8, low);
    assert f in ControlRegisters(eip);
    FieldAt(eip, sevFeatures, vcpuSig, f);
  }

  lemma Signature(eip: nat, sevFeatures: nat, vcpuSig: nat)
    requires Bits32(vcpuSig)
    ensures FromLE(SaveArea(eip, sevFeatures, vcpuSig)[0x310..0x318]) == vcpuSig
  {
    FieldAt(eip, sevFeatures, vcpuSig, Field(0x310, 8, vcpuSig));
  }

  lemma Features(eip: nat, sevFeatures: nat, vcpuSig: nat)
    requires Bits64(sevFeatures)
    ensures FromLE(SaveArea(eip, sevFeatures, vcpuSig)[0x3b0..0x3b8]) == sevFeatures
  {
    FieldAt(eip, sevFeatures, vcpuSig, Field(0x3b0, 8, sevFeatures));
  }

  /** Equal pages: the same reset address, the same features, the same CPU signature. */
  lemma SaveAreaInjective(eip1: nat, f1: nat, sig1: nat, eip2: nat, f2: nat, sig2: nat)
    requires Bits32(eip1) && Bits64(f1) && Bits32(sig1) && Bits32(eip2) && Bits64(f2) && Bits32(sig2)
    requires SaveArea(eip1, f1, sig1) == SaveArea(eip2, f2, sig2)
    ensures eip1 == eip2 && f1 == f2 && sig1 == sig2
  {
    CodeSegmentBase(eip1, f1, sig1);
    CodeSegmentBase(eip2, f2, sig2);
    InstructionPointer(eip1, f1, sig1);
    InstructionPointer(eip2, f2, sig2);
    Signature(eip1, f1, sig1);
    Signature(eip2, f2, sig2);
    Features(eip1, f1, sig1);
    Features(eip2, f2, sig2);
  }

  // ---- One page per vCPU ----

  const BSP_EIP: nat := 0xffff_fff0

  /** The boot processor first, then the other processors. */
  method VMSAPages(vcpus: nat, apEip: nat, sevFeatures: nat, vcpuSig: nat) returns (pages: seq<seq<byte>>)
    ensures |pages| == vcpus
    ensures forall i :: 0 <= i < vcpus ==> pages[i] == SaveArea(if i == 0 then BSP_EIP else apEip, sevFeatures, vcpuSig)
  {
    var bsp := BuildVMSASaveArea(BSP_EIP, sevFeatures, vcpuSig);
    var ap := BuildVMSASaveArea(apEip, sevFeatures, vcpuSig);
    pages := Repeat(bsp, ap, vcpus);
  }

  /** The loop of VMSAPages. */
  method Repeat(bsp: seq<byte>, ap: seq<byte>, vcpus: nat) returns (pages: seq<seq<byte>>)
    ensures |pages| == vcpus
    ensures forall i :: 0 <= i < vcpus ==> pages[i] == if i == 0 then bsp else ap
  {
    var a := new seq<byte>[vcpus](_ => []);
    for i := 0 to vcpus
      invariant forall j :: 0 <= j < i ==> a[j] == if j == 0 then bsp else ap
    {
      if i == 0 {
        a[i] := bsp;
      } else {
        a[i] := ap;
      }
    }
    pages := a[..];
  }
}

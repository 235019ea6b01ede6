/** What the launch digest means: which guests share one, and when extending a digest is right. */
module LaunchTheorems {
  import opened Ideal
  import opened Sequences
  import opened Octets
  import opened Ovmf
  import opened LaunchDigest
  import Vmsa
  import SevHashes

  ghost function Calc(g: Guest): (r: Result<LD>)
    requires GuestOk(g)
  {
    match LaunchUpdates(g)
    case Ok(us) => Ok(Measure(ZeroLD(), us))
    case Err(error) => Err(error)
  }

  // ---- Extending ----

  lemma MoreProcessors(n: nat, apEip: nat, features: nat, vcpuSig: nat)
    requires n >= 1
    ensures VmsaUpdates(n, apEip, features, vcpuSig)
         == VmsaUpdates(1, apEip, features, vcpuSig)
             + Copies(VmsaUpdate(Vmsa.SaveArea(apEip, features, vcpuSig)), n - 1)
  {
    var us := VmsaUpdates(n, apEip, features, vcpuSig);
    assert us[0] == VmsaUpdates(1, apEip, features, vcpuSig)[0];
  }

  lemma SameCopies(u: PageUpdate, v: PageUpdate, n: nat)
    ensures Copies(u, n) == Copies(v, n) <==> n == 0 || u == v
  {
    if n > 0 && Copies(u, n) == Copies(v, n) {
      assert Copies(u, n)[0] == Copies(v, n)[0];
    }
  }

  lemma VmsaUpdateInjective(eip: nat, f1: nat, f2: nat, sig: nat)
    requires Vmsa.Bits32(eip) && Vmsa.Bits64(f1) && Vmsa.Bits64(f2) && Vmsa.Bits32(sig)
    ensures VmsaUpdate(Vmsa.SaveArea(eip, f1, sig)) == VmsaUpdate(Vmsa.SaveArea(eip, f2, sig)) <==> f1 == f2
  {
    var p, q := Vmsa.SaveArea(eip, f1, sig), Vmsa.SaveArea(eip, f2, sig);
    if VmsaUpdate(p) == VmsaUpdate(q) {
      Digest384Injective(Plain(p), Plain(q));
      PlainInjective(p, q);
      Vmsa.SaveAreaInjective(eip, f1, sig, eip, f2, sig);
    }
  }

  lemma CalcContinues(g: Guest, n: nat, apEip: nat)
    requires GuestOk(g) && Calc(g.(vcpus := 1)).Ok? && n >= 1
    requires SEVESResetEIP(ParseFirmware(g.image).value) == Some(apEip)
    ensures GuestOk(g.(vcpus := n)) && Calc(g.(vcpus := n)).Ok?
    ensures Calc(g.(vcpus := n)).value
         == Measure(Calc(g.(vcpus := 1)).value, Copies(VmsaUpdate(Vmsa.SaveArea(apEip, g.features, g.vcpuSig)), n - 1))
  {
    var fw := ParseFirmware(g.image).value;
    var front := NormalPages(ImageStart(g.image), Plain(g.image)) + MetadataUpdates(fw, HashesOf(g.boot)).value;
    var one := VmsaUpdates(1, apEip, g.features, g.vcpuSig);
    var more := Copies(VmsaUpdate(Vmsa.SaveArea(apEip, g.features, g.vcpuSig)), n - 1);
    MoreProcessors(n, apEip, g.features, g.vcpuSig);
    assert front + VmsaUpdates(n, apEip, g.features, g.vcpuSig) == (front + one) + more;
    MeasureAppend(ZeroLD(), front + one, more);
  }

  /** Extending the digest for one processor gives the digest for any number of them exactly if
      there is nothing to add or the guest features are the ones the extension assumes. Counts out
      of range are refused. */
  lemma ExtendRefinesCalc(g: Guest, n: int, apEip: nat)
    requires GuestOk(g) && Calc(g.(vcpus := 1)).Ok?
    requires SEVESResetEIP(ParseFirmware(g.image).value) == Some(apEip)
    ensures var extended := ExtendSpec(Calc(g.(vcpus := 1)).value, n, apEip, g.vcpuSig);
            && (extended.Ok? <==> 1 <= n <= 0xffff)
            && (1 <= n <= 0xffff ==>
                GuestOk(g.(vcpus := n)) && (extended == Calc(g.(vcpus := n)) <==> n == 1 || g.features == 0x1))
  {
    if 1 <= n <= 0xffff {
      CalcContinues(g, n, apEip);
      var seed := Calc(g.(vcpus := 1)).value;
      var u, v := VmsaUpdate(Vmsa.SaveArea(apEip, 0x1, g.vcpuSig)),
          VmsaUpdate(Vmsa.SaveArea(apEip, g.features, g.vcpuSig));
      VmsaUpdateInjective(apEip, 0x1, g.features, g.vcpuSig);
      SameCopies(u, v, n - 1);
      if Measure(seed, Copies(u, n - 1)) == Measure(seed, Copies(v, n - 1)) {
        ContinuationBinds(seed, Copies(u, n - 1), Copies(v, n - 1));
      }
    }
  }

  // ---- What a digest says about the guest ----

  /** An image is recognised by where it starts and by its pages. */
  lemma ImageBinds(a: seq<byte>, b: seq<byte>, us: seq<PageUpdate>, vs: seq<PageUpdate>)
    requires 0 < |a| < 0x8000_0000_0000_0000 && 0 < |b| < 0x8000_0000_0000_0000
    requires |a| % PAGE_SIZE == 0 && |b| % PAGE_SIZE == 0
    requires NormalPages(ImageStart(a), Plain(a)) + us == NormalPages(ImageStart(b), Plain(b)) + vs
    ensures a == b && us == vs
  {
    var p, q := NormalPages(ImageStart(a), Plain(a)), NormalPages(ImageStart(b), Plain(b));
    assert p[0] == (p + us)[0] == (q + vs)[0] == q[0];
    assert p[0].gpa == (ImageStart(a) + PAGE_SIZE * 0) % TWO_TO_64
           && q[0].gpa == (ImageStart(b) + PAGE_SIZE * 0) % TWO_TO_64;
    SameStart(|a|, |b|);
    SameHalves(p, us, q, vs);
    NormalPagesBind(ImageStart(a), Plain(a), Plain(b));
    PlainInjective(a, b);
  }

  lemma SameStart(m: nat, n: nat)
    requires m < 0x8000_0000_0000_0000 && n < 0x8000_0000_0000_0000
    requires (FOUR_GB - m) % TWO_TO_64 == (FOUR_GB - n) % TWO_TO_64
    ensures m == n
  {
  }

  /** With and without kernel hashes, a section adds as many pages. */
  lemma SameNumberOfPages(fw: Firmware, s: MetadataSection, h1: Option<SevHashes.Hashes>, h2: Option<SevHashes.Hashes>)
    requires SectionOk(s) && SectionUpdates(fw, s, h1).Ok? && SectionUpdates(fw, s, h2).Ok?
    ensures |SectionUpdates(fw, s, h1).value| == |SectionUpdates(fw, s, h2).value|
  {
  }

  lemma {:induction false} SectionsBind(fw: Firmware, sections: seq<MetadataSection>, h1: Option<SevHashes.Hashes>,
                                        h2: Option<SevHashes.Hashes>)
    requires SectionsOk(sections)
    requires AllSectionUpdates(fw, sections, h1).Ok? && AllSectionUpdates(fw, sections, h2).Ok?
    ensures |AllSectionUpdates(fw, sections, h1).value| == |AllSectionUpdates(fw, sections, h2).value|
    ensures AllSectionUpdates(fw, sections, h1) == AllSectionUpdates(fw, sections, h2) ==>
              forall i :: 0 <= i < |sections| ==>
                  SectionUpdates(fw, sections[i], h1) == SectionUpdates(fw, sections[i], h2)
  {
    if sections != [] {
      var n := |sections| - 1;
      SectionsBind(fw, sections[..n], h1, h2);
      SameNumberOfPages(fw, sections[n], h1, h2);
      SameHalves(AllSectionUpdates(fw, sections[..n], h1).value, SectionUpdates(fw, sections[n], h1).value,
                 AllSectionUpdates(fw, sections[..n], h2).value, SectionUpdates(fw, sections[n], h2).value);
    }
  }

  /** The hash table lies in its page as a whole. */
  predicate TableFits(fw: Firmware) {
    SEVHashesTableGPA(fw).Some? ==> SEVHashesTableGPA(fw).value % PAGE_SIZE + SevHashes.TABLE_SIZE <= PAGE_SIZE
  }

  lemma HashSectionBinds(fw: Firmware, s: MetadataSection, h1: Option<SevHashes.Hashes>, h2: Option<SevHashes.Hashes>)
    requires SectionOk(s) && s.kind == KERNEL_HASHES
    requires SectionUpdates(fw, s, h1).Ok? && SectionUpdates(fw, s, h1) == SectionUpdates(fw, s, h2)
    ensures h1.Some? <==> h2.Some?
    ensures TableFits(fw) ==> h1 == h2
  {
    HashSectionKind(fw, s, h1);
    HashSectionKind(fw, s, h2);
    if h1.Some? && h2.Some? && TableFits(fw) {
      var off := SEVHashesTableGPA(fw).value % PAGE_SIZE;
      NormalPagesBind(s.gpa, SevHashes.PageOf(h1.value, off), SevHashes.PageOf(h2.value, off));
      SevHashes.PageBinds(h1.value, h2.value, off);
    }
  }

  /** The page type shows whether there are kernel hashes. */
  lemma HashSectionKind(fw: Firmware, s: MetadataSection, hashes: Option<SevHashes.Hashes>)
    requires SectionOk(s) && s.kind == KERNEL_HASHES && SectionUpdates(fw, s, hashes).Ok?
    ensures var us := SectionUpdates(fw, s, hashes).value;
            if hashes.Some? then us != [] && us[0].kind == NORMAL
            else forall i :: 0 <= i < |us| ==> us[i].kind == ZERO
  {
  }

  lemma MetadataBinds(fw: Firmware, h1: Option<SevHashes.Hashes>, h2: Option<SevHashes.Hashes>)
    requires SectionsOk(fw.sections) && MetadataUpdates(fw, h1).Ok? && MetadataUpdates(fw, h2).Ok?
    ensures |MetadataUpdates(fw, h1).value| == |MetadataUpdates(fw, h2).value|
    ensures MetadataUpdates(fw, h1) == MetadataUpdates(fw, h2) ==> (h1.Some? <==> h2.Some?)
    ensures MetadataUpdates(fw, h1) == MetadataUpdates(fw, h2) && TableFits(fw) ==> h1 == h2
  {
    SectionsBind(fw, fw.sections, h1, h2);
    if MetadataUpdates(fw, h1) == MetadataUpdates(fw, h2) && (h1.Some? || h2.Some?) {
      var i :| 0 <= i < |fw.sections| && fw.sections[i].kind == KERNEL_HASHES;
      SectionSucceeds(fw, fw.sections, i, h1);
      HashSectionBinds(fw, fw.sections[i], h1, h2);
    }
  }

  lemma {:induction false} SectionSucceeds(fw: Firmware, sections: seq<MetadataSection>, i: nat,
                                           hashes: Option<SevHashes.Hashes>)
    requires SectionsOk(sections) && i < |sections| && AllSectionUpdates(fw, sections, hashes).Ok?
    ensures SectionUpdates(fw, sections[i], hashes).Ok?
    decreases |sections|
  {
    if i < |sections| - 1 {
      SectionSucceeds(fw, sections[..|sections| - 1], i, hashes);
    }
  }

  lemma ProcessorsBind(n1: nat, f1: nat, sig1: nat, n2: nat, f2: nat, sig2: nat, apEip: nat)
    requires Vmsa.Bits64(f1) && Vmsa.Bits64(f2) && Vmsa.Bits32(sig1) && Vmsa.Bits32(sig2)
    requires VmsaUpdates(n1, apEip, f1, sig1) == VmsaUpdates(n2, apEip, f2, sig2)
    ensures n1 == n2
    ensures n1 >= 1 ==> f1 == f2 && sig1 == sig2
  {
    assert |VmsaUpdates(n1, apEip, f1, sig1)| == |VmsaUpdates(n2, apEip, f2, sig2)|;
    if n1 >= 1 {
      var p, q := Vmsa.SaveArea(Vmsa.BSP_EIP, f1, sig1), Vmsa.SaveArea(Vmsa.BSP_EIP, f2, sig2);
      assert VmsaUpdates(n1, apEip, f1, sig1)[0] == VmsaUpdate(p)
             && VmsaUpdates(n2, apEip, f2, sig2)[0] == VmsaUpdate(q);
      Digest384Injective(Plain(p), Plain(q));
      PlainInjective(p, q);
      Vmsa.SaveAreaInjective(Vmsa.BSP_EIP, f1, sig1, Vmsa.BSP_EIP, f2, sig2);
    }
  }

  lemma BootBinds(a: Option<SevHashes.Boot>, b: Option<SevHashes.Boot>)
    requires HashesOf(a) == HashesOf(b)
    ensures a == b
  {
    if a.Some? {
      SevHashes.HashesBind(a.value, b.value);
    }
  }

  /** One digest, one guest: image, number and kind of processors, features and whether a kernel is
      measured; and if the firmware reserves room for the whole hash table, also kernel, initrd and
      command line. Without a processor there is nothing that shows features and CPU signature. */
  lemma LaunchDigestBinds(a: Guest, b: Guest)
    requires GuestOk(a) && GuestOk(b) && Calc(a).Ok? && Calc(a) == Calc(b)
    ensures a.image == b.image && a.vcpus == b.vcpus
    ensures a.vcpus >= 1 ==> a.features == b.features && a.vcpuSig == b.vcpuSig
    ensures a.boot.Some? <==> b.boot.Some?
    ensures TableFits(ParseFirmware(a.image).value) ==> a.boot == b.boot
  {
    MeasurementBinds(LaunchUpdates(a).value, LaunchUpdates(b).value);
    var fw1, fw2 := ParseFirmware(a.image).value, ParseFirmware(b.image).value;
    var m1, m2 := MetadataUpdates(fw1, HashesOf(a.boot)).value, MetadataUpdates(fw2, HashesOf(b.boot)).value;
    var v1 := VmsaUpdates(a.vcpus, SEVESResetEIP(fw1).value, a.features, a.vcpuSig);
    var v2 := VmsaUpdates(b.vcpus, SEVESResetEIP(fw2).value, b.features, b.vcpuSig);
    ImageNotEmpty(a.image);
    ImageNotEmpty(b.image);
    Associative(NormalPages(ImageStart(a.image), Plain(a.image)), m1, v1);
    Associative(NormalPages(ImageStart(b.image), Plain(b.image)), m2, v2);
    ImageBinds(a.image, b.image, m1 + v1, m2 + v2);
    MetadataBinds(fw1, HashesOf(a.boot), HashesOf(b.boot));
    SameHalves(m1, v1, m2, v2);
    ProcessorsBind(a.vcpus, a.features, a.vcpuSig, b.vcpus, b.features, b.vcpuSig, SEVESResetEIP(fw1).value);
    if TableFits(fw1) {
      BootBinds(a.boot, b.boot);
    }
  }

  lemma ImageNotEmpty(data: seq<byte>)
    requires FooterFits(data) && ParseFirmware(data).Some? && SEVESResetEIP(ParseFirmware(data).value).Some?
    ensures |data| > 0
  {
  }
}

/** An image that the laws of rebasing are about. */
module PeSample {
  import opened Words
  import opened PeModel
  import opened PeRebase

  const SAMPLE := Layout([Section(0x1000, 0x100, 0x100)], 0x1010, 10, true)
  const SAMPLE_DIR := 0x110
  const SAMPLE_BASE := 0x1_4000_0000

  /** A file of 0x200 bytes: a PE header at 0x80 with its base at 0xB0, an address to be
      moved at the start of the section, and a directory with one DIR64 entry for it. */
  function SampleByte(i: int): byte {
    if i == 0x3C then 0x80
    else if i == 0xB3 then 0x40
    else if i == 0xB4 then 0x01
    else if i == 0x111 then 0x10
    else if i == 0x114 then 10
    else if i == 0x119 then 0xA0
    else 0
  }

  function SampleFile(): (raw: seq<byte>)
    ensures |raw| == 0x200
  {
    seq(0x200, i => SampleByte(i))
  }

  /** The laws of rebasing are about images like this one: it is well formed and its
      directory mapped, its header names its base, and the word and the header field are
      what moves. */
  lemma SampleIsWellFormed()
    ensures WellFormed(SAMPLE, SampleFile(), SAMPLE_DIR) && HeaderSays(SAMPLE, SampleFile(), SAMPLE_BASE)
    ensures Targets(SAMPLE, SampleFile(), SAMPLE_DIR) == [Region(0x100, 8), Region(0xB0, 8)]
    ensures forall rva | 0x1010 <= rva < 0x101A :: RvaToPos(SAMPLE.sections, rva) == SAMPLE_DIR + (rva - 0x1010)
  {
    SampleTargets();
    SampleHeader();
    SampleSound(SampleFile());
    SampleMapped();
  }

  lemma SampleMapped()
    ensures HasDirectory(SAMPLE, SampleFile(), SAMPLE_DIR)
    ensures forall rva | 0x1010 <= rva < 0x101A :: RvaToPos(SAMPLE.sections, rva) == SAMPLE_DIR + (rva - 0x1010)
  {
  }

  lemma SampleSound(raw: seq<byte>)
    requires raw == SampleFile()
    ensures WellFormed(SAMPLE, raw, SAMPLE_DIR)
  {
    SampleTargets();
    SamplePages();
    SampleMapped();
    SampleApart(Targets(SAMPLE, raw, SAMPLE_DIR));
    MakesSound(SAMPLE, raw, SAMPLE_DIR, Targets(SAMPLE, raw, SAMPLE_DIR));
  }

  lemma MakesSound(img: Layout, raw: seq<byte>, dir: nat, targets: seq<Region>)
    requires HasDirectory(img, raw, dir) && targets == Targets(img, raw, dir)
    requires PagesFit(img, raw, dir, 0) && Disjoint(targets)
    requires forall i | 0 <= i < |targets| :: Apart(targets[i], Region(dir, img.relocSize)) && Apart(targets[i], Region(0x3C, 4))
    ensures WellFormed(img, raw, dir)
  {
  }

  lemma SampleApart(targets: seq<Region>)
    requires targets == [Region(0x100, 8), Region(0xB0, 8)]
    ensures Disjoint(targets)
    ensures forall i | 0 <= i < |targets| :: Apart(targets[i], Region(SAMPLE_DIR, 10)) && Apart(targets[i], Region(0x3C, 4))
  {
  }

  lemma SamplePages()
    ensures PagesFit(SAMPLE, SampleFile(), SAMPLE_DIR, 0)
  {
    var raw := SampleFile();
    SampleHead(raw);
    assert PagesFit(SAMPLE, raw, SAMPLE_DIR, 10);
  }

  lemma SampleHead(raw: seq<byte>)
    requires raw == SampleFile()
    ensures PageOf(raw, SAMPLE_DIR) == 0x1000 && SizeOf(raw, SAMPLE_DIR) == 10 && Word(raw, SAMPLE_DIR + 8) == 0xA000
  {
  }

  lemma SampleTargets()
    ensures Targets(SAMPLE, SampleFile(), SAMPLE_DIR) == [Region(0x100, 8), Region(0xB0, 8)]
  {
    var raw := SampleFile();
    SampleHead(raw);
    SampleEntry(raw);
    FromHead(SAMPLE, raw, SAMPLE_DIR, 0);
    FromHead(SAMPLE, raw, SAMPLE_DIR, 10);
    SampleField(raw);
  }

  lemma SampleEntry(raw: seq<byte>)
    requires raw == SampleFile()
    ensures BlockFixes(SAMPLE, raw, 0x1000, SAMPLE_DIR + 8, 1) == [Region(0x100, 8)]
  {
    SampleHead(raw);
    assert BlockFixes(SAMPLE, raw, 0x1000, SAMPLE_DIR + 8, 0) == [];
    assert EntryFix(SAMPLE, 0x1000, 0xA000) == Region(0x100, 8);
  }

  lemma SampleField(raw: seq<byte>)
    requires raw == SampleFile()
    ensures HeaderField(SAMPLE, raw) == Region(0xB0, 8)
  {
    assert Dword(raw, 0x3C) == 0x80;
  }

  lemma SampleHeader()
    ensures HeaderSays(SAMPLE, SampleFile(), SAMPLE_BASE)
  {
    var raw := SampleFile();
    SampleField(raw);
    SampleWord(raw);
    assert Pow256(1) == 256 && Pow256(4) == 256 * (256 * (256 * Pow256(1)));
    assert Pow256(8) == 256 * (256 * (256 * (256 * Pow256(4))));
    WrapOfFitting(SAMPLE_BASE, 8);
  }

  lemma SampleWord(raw: seq<byte>)
    requires raw == SampleFile()
    ensures Read(raw, 0xB0, 8) == SAMPLE_BASE
  {
    assert Read(raw, 0xB8, 0) == 0;
    assert Read(raw, 0xB5, 3) == 0;
    assert Read(raw, 0xB4, 4) == 1;
    assert Read(raw, 0xB3, 5) == 0x140;
    assert Read(raw, 0xB1, 7) == 0x140_0000;
  }
}

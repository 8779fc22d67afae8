/** Base relocation of a PE image: the fixups a .reloc directory lists, and what
    adding a displacement to all of them does to the bytes. */
module PeModel {
  import opened Words

  const DIR64 := 10
  const HIGHLOW := 3

  /** `data` is where the section's bytes start in the file, or -1 without any. */
  datatype Section = Section(va: nat, rawSize: nat, data: int)

  /** The parts of a loaded image that relocation does not change. */
  datatype Layout = Layout(sections: seq<Section>, relocRva: nat, relocSize: nat, is64: bool)

  // ---- Little-endian words ----

  function Read(raw: seq<byte>, pos: nat, n: nat): nat
    requires pos + n <= |raw|
    decreases n
  {
    if n == 0 then 0 else raw[pos] + 256 * Read(raw, pos + 1, n - 1)
  }

  /** The two fixed widths of the directory and the header. */
  function Word(raw: seq<byte>, at: nat): nat
    requires at + 2 <= |raw|
  {
    raw[at] as int + 0x100 * (raw[at + 1] as int)
  }

  function Dword(raw: seq<byte>, at: nat): nat
    requires at + 4 <= |raw|
  {
    Word(raw, at) + 0x1_0000 * Word(raw, at + 2)
  }

  /** A number put down byte by byte, the lowest first. */
  function Write(raw: seq<byte>, pos: nat, n: nat, v: nat): (r: seq<byte>)
    requires pos + n <= |raw|
    ensures |r| == |raw|
    decreases n
  {
    if n == 0 then raw else Write(raw[pos := v % 256], pos + 1, n - 1, v / 256)
  }

  lemma {:induction false} ReadFits(s: seq<byte>, pos: nat, n: nat)
    requires pos + n <= |s|
    ensures Read(s, pos, n) < Pow256(n)
    decreases n
  {
    if n > 0 {
      ReadFits(s, pos + 1, n - 1);
    }
  }

  /** Writing a word and reading it back. */
  lemma {:induction false} WriteRead(raw: seq<byte>, pos: nat, n: nat, v: nat)
    requires pos + n <= |raw| && v < Pow256(n)
    ensures Read(Write(raw, pos, n, v), pos, n) == v
    decreases n
  {
    if n > 0 {
      var first := raw[pos := v % 256];
      WriteRead(first, pos + 1, n - 1, v / 256);
      WriteElsewhere(first, pos + 1, n - 1, v / 256, pos);
    }
  }

  lemma {:induction false} WriteElsewhere(raw: seq<byte>, pos: nat, n: nat, v: nat, p: nat)
    requires pos + n <= |raw| && p < |raw| && !(pos <= p < pos + n)
    ensures Write(raw, pos, n, v)[p] == raw[p]
    decreases n
  {
    if n > 0 {
      WriteElsewhere(raw[pos := v % 256], pos + 1, n - 1, v / 256, p);
    }
  }

  /** A word's value is determined by its bytes, and determines them. */
  lemma {:induction false} ReadAgrees(a: seq<byte>, b: seq<byte>, pos: nat, n: nat)
    requires |a| == |b| && pos + n <= |a| && forall p | pos <= p < pos + n :: a[p] == b[p]
    ensures Read(a, pos, n) == Read(b, pos, n)
    decreases n
  {
    if n > 0 {
      ReadAgrees(a, b, pos + 1, n - 1);
    }
  }

  lemma {:induction false} BytesAgree(a: seq<byte>, b: seq<byte>, pos: nat, n: nat)
    requires |a| == |b| && pos + n <= |a| && Read(a, pos, n) == Read(b, pos, n)
    ensures forall p | pos <= p < pos + n :: a[p] == b[p]
    decreases n
  {
    if n > 0 {
      LowByte(a[pos], Read(a, pos + 1, n - 1));
      LowByte(b[pos], Read(b, pos + 1, n - 1));
      BytesAgree(a, b, pos + 1, n - 1);
    }
  }

  lemma LowByte(low: byte, rest: nat)
    ensures (low + 256 * rest) % 256 == low && (low + 256 * rest) / 256 == rest
  {
  }

  predicate AskedAgree(key: Key, a: seq<byte>, b: seq<byte>) {
    true
  }

  /** The bytes agree from lo to hi. The statement is kept under a key: it only unfolds
      where AskedAgree names it. */
  ghost predicate Agree(a: seq<byte>, b: seq<byte>, lo: nat, hi: nat) {
    && |a| == |b| && lo <= hi <= |a|
    && forall k: Key {:trigger AskedAgree(k, a, b)} :: AskedAgree(k, a, b) ==> a[lo..hi] == b[lo..hi]
  }

  lemma AgreesAt(a: seq<byte>, b: seq<byte>, lo: nat, hi: nat, p: nat)
    requires Agree(a, b, lo, hi) && lo <= p < hi
    ensures a[p] == b[p]
  {
    assert AskedAgree(Key, a, b);
    assert a[lo..hi][p - lo] == b[lo..hi][p - lo];
  }

  lemma DwordAgrees(a: seq<byte>, b: seq<byte>, lo: nat, hi: nat, at: nat)
    requires Agree(a, b, lo, hi) && lo <= at && at + 4 <= hi
    ensures Dword(a, at) == Dword(b, at)
  {
    AgreesAt(a, b, lo, hi, at);
    AgreesAt(a, b, lo, hi, at + 1);
    AgreesAt(a, b, lo, hi, at + 2);
    AgreesAt(a, b, lo, hi, at + 3);
  }

  lemma WordAgrees(a: seq<byte>, b: seq<byte>, lo: nat, hi: nat, at: nat)
    requires Agree(a, b, lo, hi) && lo <= at && at + 2 <= hi
    ensures Word(a, at) == Word(b, at)
  {
    AgreesAt(a, b, lo, hi, at);
    AgreesAt(a, b, lo, hi, at + 1);
  }

  // ---- Looking up addresses ----

  function RvaToPos(sections: seq<Section>, rva: nat): (pos: int)
    ensures pos >= -1
  {
    if sections == [] then -1
    else
      var s := sections[0];
      if s.va <= rva < s.va + s.rawSize && s.data >= 0 then s.data + (rva - s.va) else RvaToPos(sections[1..], rva)
  }

  /** The lookup for a change of `need` bytes: all of them must be in the section. */
  function RvaToMut(sections: seq<Section>, rva: nat, need: nat): (pos: int)
    ensures pos >= -1
  {
    if sections == [] then -1
    else
      var s := sections[0];
      if s.data >= 0 && s.va <= rva && rva + need <= s.va + s.rawSize then s.data + (rva - s.va)
      else RvaToMut(sections[1..], rva, need)
  }

  predicate SectionsOk(sections: seq<Section>, size: nat) {
    forall i | 0 <= i < |sections| ::
      sections[i].va + sections[i].rawSize < U32 && (sections[i].data >= 0 ==> sections[i].data + sections[i].rawSize <= size)
  }

  lemma {:induction false} MutInside(sections: seq<Section>, rva: nat, need: nat, size: nat)
    requires SectionsOk(sections, size)
    ensures RvaToMut(sections, rva, need) + need <= size || RvaToMut(sections, rva, need) == -1
  {
    if sections != [] {
      assert SectionsOk(sections[1..], size);
      MutInside(sections[1..], rva, need, size);
    }
  }

  // ---- The directory ----

  /** A word that moves with the image; skipped entries have width 0. */
  datatype Region = Region(pos: nat, width: nat)

  const SKIPPED := Region(0, 0)

  function Found(pos: int, width: nat): Region
    requires pos >= -1
  {
    if pos == -1 then SKIPPED else Region(pos, width)
  }

  function EntryFix(img: Layout, page: nat, e: nat): Region {
    if e / 0x1000 == DIR64 then Found(RvaToMut(img.sections, page + e % 0x1000, 8), 8)
    else if e / 0x1000 == HIGHLOW then Found(RvaToMut(img.sections, page + e % 0x1000, 4), 4)
    else SKIPPED
  }

  function BlockFixes(img: Layout, raw: seq<byte>, page: nat, at: nat, n: nat): (r: seq<Region>)
    requires at + 2 * n <= |raw|
    ensures |r| == n
    decreases n
  {
    if n == 0 then [] else BlockFixes(img, raw, page, at, n - 1) + [EntryFix(img, page, Word(raw, at + 2 * (n - 1)))]
  }

  function PageOf(raw: seq<byte>, at: nat): nat
    requires at + 8 <= |raw|
  {
    Dword(raw, at)
  }

  function SizeOf(raw: seq<byte>, at: nat): nat
    requires at + 8 <= |raw|
  {
    Dword(raw, at + 4)
  }

  /** Whether a block starts at `off` and fits into the directory. */
  predicate BlockAt(img: Layout, raw: seq<byte>, dir: nat, off: nat)
    requires dir + img.relocSize <= |raw|
  {
    off + 8 <= img.relocSize && 8 <= SizeOf(raw, dir + off) && off + SizeOf(raw, dir + off) <= img.relocSize
  }

  function Entries(size: nat): nat
    requires size >= 8
  {
    (size - 8) / 2
  }

  /** The fixups of the directory from `off` on, block by block. */
  function DirFixes(img: Layout, raw: seq<byte>, dir: nat, off: nat): seq<Region>
    requires dir + img.relocSize <= |raw|
    decreases img.relocSize - off
  {
    if !BlockAt(img, raw, dir, off) then []
    else
      var at := dir + off;
      var size := SizeOf(raw, at);
      BlockFixes(img, raw, PageOf(raw, at), at + 8, Entries(size)) + DirFixes(img, raw, dir, off + size)
  }

  /** No block reaches beyond the 32-bit offsets, and no page touches the end of the
      32-bit address space. */
  predicate PagesFit(img: Layout, raw: seq<byte>, dir: nat, off: nat)
    requires dir + img.relocSize <= |raw|
    decreases img.relocSize - off
  {
    off + 8 <= img.relocSize ==>
      && off + SizeOf(raw, dir + off) < U32
      && (BlockAt(img, raw, dir, off) ==>
            PageOf(raw, dir + off) + 0x1008 <= U32 && PagesFit(img, raw, dir, off + SizeOf(raw, dir + off)))
  }

  /** The ImageBase field of the optional header, when the file has room for one. */
  function HeaderField(img: Layout, raw: seq<byte>): (r: Region)
    ensures r.pos + r.width <= |raw| && (r.width == 0 || r.width == if img.is64 then 8 else 4)
  {
    if |raw| <= 0x100 then SKIPPED
    else
      var pe := Dword(raw, 0x3C);
      if pe + 24 + 36 > |raw| then SKIPPED
      else if img.is64 then Region(pe + 24 + 24, 8) else Region(pe + 24 + 28, 4)
  }

  // ---- Moving regions ----

  predicate RegionOk(r: Region, size: nat) {
    (r.width == 0 || r.width == 4 || r.width == 8) && r.pos + r.width <= size
  }

  /** A number in two's complement, cut to a width in bytes. */
  function Wrap(v: int, width: nat): nat
    decreases width
  {
    if width == 0 then 0 else v % 256 + 256 * Wrap(v / 256, width - 1)
  }

  function Moved(raw: seq<byte>, r: Region, delta: int): (raw': seq<byte>)
    requires RegionOk(r, |raw|)
    ensures |raw'| == |raw|
  {
    Write(raw, r.pos, r.width, Wrap(Read(raw, r.pos, r.width) + delta, r.width))
  }

  function MoveAll(raw: seq<byte>, regions: seq<Region>, delta: int): (raw': seq<byte>)
    requires forall i | 0 <= i < |regions| :: RegionOk(regions[i], |raw|)
    ensures |raw'| == |raw|
    decreases |regions|
  {
    if regions == [] then raw
    else Moved(MoveAll(raw, regions[..|regions| - 1], delta), regions[|regions| - 1], delta)
  }

  /** wg_pe_rebase on the bytes: nothing at the same base, no success without a
      directory, otherwise all fixups and the header field. `dir` is where the
      directory is in the file. */
  function Rebased(img: Layout, raw: seq<byte>, dir: nat, base: nat, newBase: nat): (r: seq<byte>)
    requires dir + img.relocSize <= |raw| && SectionsOk(img.sections, |raw|)
    ensures |r| == |raw|
  {
    if base == newBase || img.relocRva == 0 || img.relocSize == 0 then raw
    else
      FixesOk(img, raw, dir, 0);
      var moved := MoveAll(raw, DirFixes(img, raw, dir, 0), newBase - base);
      var h := HeaderField(img, moved);
      Write(moved, h.pos, h.width, Wrap(newBase, h.width))
  }

  lemma {:induction false} BlockFixesOk(img: Layout, raw: seq<byte>, page: nat, at: nat, n: nat)
    requires at + 2 * n <= |raw| && SectionsOk(img.sections, |raw|)
    ensures forall i | 0 <= i < n :: RegionOk(BlockFixes(img, raw, page, at, n)[i], |raw|)
  {
    if n > 0 {
      BlockFixesOk(img, raw, page, at, n - 1);
      var e := Word(raw, at + 2 * (n - 1));
      MutInside(img.sections, page + e % 0x1000, 8, |raw|);
      MutInside(img.sections, page + e % 0x1000, 4, |raw|);
    }
  }

  lemma {:induction false} FixesOk(img: Layout, raw: seq<byte>, dir: nat, off: nat)
    requires dir + img.relocSize <= |raw| && SectionsOk(img.sections, |raw|)
    ensures forall i | 0 <= i < |DirFixes(img, raw, dir, off)| :: RegionOk(DirFixes(img, raw, dir, off)[i], |raw|)
    decreases img.relocSize - off
  {
    if BlockAt(img, raw, dir, off) {
      var at := dir + off;
      var size := SizeOf(raw, at);
      BlockFixesOk(img, raw, PageOf(raw, at), at + 8, Entries(size));
      FixesOk(img, raw, dir, off + size);
    }
  }
}

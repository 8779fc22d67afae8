/** wg_pe_rebase on a loaded image: the block walk and the fixups, in place on the
    bytes of the file. */
module PeImage {
  import opened Words
  import opened PeModel
  import opened PeRebase
  import opened PeWalk

  class Image {
    const raw: array<byte>
    const sections: seq<Section>
    const relocRva: nat
    const relocSize: nat
    const is64: bool
    var imageBase: nat

    ghost function Shape(): Layout {
      Layout(sections, relocRva, relocSize, is64)
    }

    /** The directory's addresses are those of the file from `dir` on. */
    ghost predicate Mapped(dir: nat) {
      && relocRva + relocSize + 8 < U32
      && forall rva | relocRva <= rva < relocRva + relocSize :: RvaToPos(sections, rva) == dir + (rva - relocRva)
    }

    constructor (file: array<byte>, sections: seq<Section>, relocRva: nat, relocSize: nat, is64: bool, imageBase: nat)
      ensures raw == file && this.sections == sections && this.relocRva == relocRva && this.relocSize == relocSize
      ensures this.is64 == is64 && this.imageBase == imageBase
    {
      raw := file;
      this.sections, this.relocRva, this.relocSize, this.is64, this.imageBase := sections, relocRva, relocSize, is64, imageBase;
    }

    // ---- Lookups ----

    method RvaToPtr(rva: nat) returns (pos: int)
      requires SectionsOk(sections, raw.Length)
      ensures pos == RvaToPos(sections, rva)
    {
      var i := 0;
      while i < |sections|
        invariant i <= |sections| && RvaToPos(sections, rva) == RvaToPos(sections[i..], rva)
      {
        var s := sections[i];
        if s.va <= rva && rva < (s.va + s.rawSize) % U32 && s.data >= 0 {
          return s.data + (rva - s.va);
        }
        i := i + 1;
      }
      pos := -1;
    }

    method RvaToMutPtr(rva: nat, need: nat) returns (pos: int)
      requires SectionsOk(sections, raw.Length) && rva + need < U32
      ensures pos == RvaToMut(sections, rva, need)
    {
      var i := 0;
      while i < |sections|
        invariant i <= |sections| && RvaToMut(sections, rva, need) == RvaToMut(sections[i..], rva, need)
      {
        var s := sections[i];
        if s.data >= 0 && s.va <= rva && (rva + need) % U32 <= (s.va + s.rawSize) % U32 {
          return s.data + (rva - s.va);
        }
        i := i + 1;
      }
      pos := -1;
    }

    // ---- Words ----

    method Load(pos: nat, width: nat) returns (v: nat)
      requires pos + width <= raw.Length
      ensures v == Read(raw[..], pos, width)
    {
      v := 0;
      var i := width;
      while i > 0
        invariant 0 <= i <= width && v == Read(raw[..], pos + i, width - i)
      {
        i := i - 1;
        v := raw[pos + i] as int + 256 * v;
      }
    }

    method Store(pos: nat, width: nat, v: nat)
      requires pos + width <= raw.Length
      modifies raw
      ensures raw[..] == Write(old(raw[..]), pos, width, v)
    {
      var rest := v;
      for i := 0 to width
        invariant Write(raw[..], pos + i, width - i, rest) == Write(old(raw[..]), pos, width, v)
      {
        ghost var before := raw[..];
        raw[pos + i] := rest % 256;
        assert raw[..] == before[pos + i := rest % 256];
        rest := rest / 256;
      }
    }

    // ---- Fixups ----

    /** One word moved by the difference of the bases. */
    method Move(pos: nat, width: nat, delta: int)
      requires pos + width <= raw.Length && (width == 4 || width == 8)
      modifies raw
      ensures raw[..] == Moved(old(raw[..]), Region(pos, width), delta)
    {
      var v := Load(pos, width);
      WrapIsCut(v + delta, width);
      Store(pos, width, Cut(v + delta, width));
    }

    /** One entry of a block. */
    method Fix(page: nat, e: nat, delta: int)
      requires SectionsOk(sections, raw.Length) && page + 0x1008 <= U32
      modifies raw
      ensures RegionOk(EntryFix(Shape(), page, e), raw.Length)
      ensures raw[..] == Moved(old(raw[..]), EntryFix(Shape(), page, e), delta)
    {
      var kind := e / 0x1000;
      var fixRva := (page + e % 0x1000) % U32;
      MutInside(sections, fixRva, 8, raw.Length);
      MutInside(sections, fixRva, 4, raw.Length);
      SkippedStays(raw[..], delta);
      if kind == DIR64 {
        var p := RvaToMutPtr(fixRva, 8);
        if p != -1 {
          Move(p, 8, delta);
        }
      } else if kind == HIGHLOW {
        var p := RvaToMutPtr(fixRva, 4);
        if p != -1 {
          Move(p, 4, delta);
        }
      }
    }

    /** The entries of one block, from the k-th fixup of the directory on. */
    method FixBlock(page: nat, at: nat, n: nat, delta: int,
                    ghost raw0: seq<byte>, ghost dir: nat, ghost all: seq<Region>, ghost k: nat)
      requires Done(Shape(), raw0, dir, all, k, raw[..], delta) && page + 0x1008 <= U32
      requires dir <= at && at + 2 * n <= dir + relocSize && BlockIs(Shape(), raw0, page, at, n, all, k)
      modifies raw
      ensures Done(Shape(), raw0, dir, all, k + n, raw[..], delta)
    {
      for i := 0 to n
        invariant Done(Shape(), raw0, dir, all, k + i, raw[..], delta)
      {
        ghost var now := raw[..];
        DirectoryStays(Shape(), raw0, dir, all, k + i, now, delta);
        WordAgrees(raw0, now, dir, dir + relocSize, at + 2 * i);
        EntryIs(Shape(), raw0, page, at, n, all, k, i);
        var e := Word(raw[..], at + 2 * i);
        Fix(page, e, delta);
        DoneNext(Shape(), raw0, dir, all, k + i, now, raw[..], delta);
      }
    }

    /** The block at `off`, or the reason to stop. */
    method Block(off: nat, delta: int, ghost raw0: seq<byte>, ghost dir: nat, ghost all: seq<Region>, ghost k: nat)
      returns (more: bool, off': nat, ghost k': nat)
      requires Done(Shape(), raw0, dir, all, k, raw[..], delta) && Left(Shape(), raw0, dir, off, all, k)
      requires Mapped(dir) && off + 8 <= relocSize
      modifies raw
      ensures Done(Shape(), raw0, dir, all, k', raw[..], delta)
      ensures if more then off < off' && Left(Shape(), raw0, dir, off', all, k') else k' == |all|
    {
      more, off', k' := false, off, k;
      var blk := RvaToPtr((relocRva + off) % U32);
      BlockPlace(dir, off);
      if blk >= 0 {
        var page, size := Dword(raw[..], blk), Dword(raw[..], blk + 4);
        HeadRead(Shape(), raw0, dir, off, blk, all, k, raw[..], delta, page, size);
        if !(size < 8 || (off + size) % U32 > relocSize) {
          var n := Entries(size);
          FixBlock(page, blk + 8, n, delta, raw0, dir, all, k);
          more, off', k' := true, off + size, k + n;
        }
      }
    }

    lemma BlockPlace(dir: nat, off: nat)
      requires Mapped(dir) && off < relocSize
      ensures (relocRva + off) % U32 == relocRva + off && RvaToPos(sections, relocRva + off) == dir + off
    {
    }

    /** All blocks of the directory. */
    method Walk(delta: int, ghost dir: nat)
      requires WellFormed(Shape(), raw[..], dir) && Mapped(dir)
      modifies raw
      ensures AllOk(DirFixes(Shape(), old(raw[..]), dir, 0), raw.Length)
      ensures raw[..] == MoveAll(old(raw[..]), DirFixes(Shape(), old(raw[..]), dir, 0), delta)
    {
      ghost var raw0, k := raw[..], 0;
      ghost var all := DoneAtStart(Shape(), raw0, dir, delta);
      var off, more := 0, true;
      while more && (off + 8) % U32 <= relocSize
        invariant Done(Shape(), raw0, dir, all, k, raw[..], delta)
        invariant if more then Left(Shape(), raw0, dir, off, all, k) else k == |all|
        decreases if more then 1 + relocSize - off else 0
      {
        more, off, k := Block(off, delta, raw0, dir, all, k);
      }
      if more {
        NothingLeft(Shape(), raw0, dir, off, all, k);
      }
      DoneAtEnd(Shape(), raw0, dir, all, raw[..], delta);
    }

    /** wg_pe_rebase. */
    method Rebase(newBase: nat, ghost dir: nat) returns (ok: bool)
      requires imageBase < U64 && newBase < U64
      requires relocRva != 0 && relocSize != 0 ==> WellFormed(Shape(), raw[..], dir) && Mapped(dir)
      modifies raw, `imageBase
      ensures ok <==> old(imageBase) == newBase || (relocRva != 0 && relocSize != 0)
      ensures imageBase == if ok then newBase else old(imageBase)
      ensures relocRva != 0 && relocSize != 0 ==> HasDirectory(Shape(), old(raw[..]), dir)
      ensures raw[..] == if relocRva != 0 && relocSize != 0 then Rebased(Shape(), old(raw[..]), dir, old(imageBase), newBase)
                         else old(raw[..])
    {
      if imageBase == newBase {
        return true;
      }
      if relocRva == 0 || relocSize == 0 {
        return false;
      }
      var delta := Signed64((newBase - imageBase) % U64);
      ghost var k := SignedDifference(newBase, imageBase);
      ghost var raw0, base := raw[..], imageBase;
      Walk(delta, dir);
      ghost var moved := raw[..];
      MovedAlike(raw0, DirFixes(Shape(), raw0, dir, 0), delta, newBase - base, k, moved);
      PutBase(newBase);
      MakesRebase(Shape(), raw0, dir, base, newBase, moved, HeaderField(Shape(), moved), raw[..]);
      imageBase := newBase;
      ok := true;
    }

    /** The ImageBase field follows. */
    method PutBase(newBase: nat)
      requires newBase < U64
      modifies raw
      ensures var h := HeaderField(Shape(), old(raw[..]));
              raw[..] == Write(old(raw[..]), h.pos, h.width, Wrap(newBase, h.width))
    {
      ghost var h := HeaderField(Shape(), raw[..]);
      ghost var w := BaseWord(newBase, h.width);
      NothingWritten(raw[..], w);
      if raw.Length > 0x100 {
        var pe := Dword(raw[..], 0x3C);
        if pe + 24 + 36 <= raw.Length {
          if is64 {
            Store(pe + 24 + 24, 8, newBase);
          } else {
            Store(pe + 24 + 28, 4, newBase % U32);
          }
        }
      }
    }
  }

  /** Displacements that differ by a multiple of 2^64 move words alike. */
  lemma {:induction false} SameMove(raw: seq<byte>, regions: seq<Region>, d: int, e: int, k: int)
    requires AllOk(regions, |raw|) && e == d + k * U64
    ensures MoveAll(raw, regions, e) == MoveAll(raw, regions, d)
    decreases |regions|
  {
    if regions != [] {
      var head, last := regions[..|regions| - 1], regions[|regions| - 1];
      SameMove(raw, head, d, e, k);
      SameWord(MoveAll(raw, head, d), last, d, e, k);
    }
  }

  lemma SameWord(raw: seq<byte>, r: Region, d: int, e: int, k: int)
    requires RegionOk(r, |raw|) && e == d + k * U64
    ensures Moved(raw, r, e) == Moved(raw, r, d)
  {
    SameSum(Value(raw, r), d, e, k, r.width);
  }

  lemma SameSum(v: int, d: int, e: int, k: int, width: nat)
    requires e == d + k * U64 && (width == 0 || width == 4 || width == 8)
    ensures Wrap(v + e, width) == Wrap(v + d, width)
  {
    SameWrap(v + d, k, width);
  }

  /** The residue of a two's complement number in a machine word. */
  function Cut(v: int, width: nat): nat {
    if width == 8 then v % U64 else v % U32
  }

  lemma WrapIsCut(v: int, width: nat)
    requires width == 4 || width == 8
    ensures Wrap(v, width) == Cut(v, width)
  {
    WrapIsMod(v, width);
    Widths();
  }

  lemma SameWrap(v: int, k: int, width: nat)
    requires width == 0 || width == 4 || width == 8
    ensures Wrap(v + k * U64, width) == Wrap(v, width)
  {
    if width != 0 {
      WrapIsCut(v, width);
      WrapIsCut(v + k * U64, width);
      SameCut(v, k, width);
    }
  }

  lemma SameCut(v: int, k: int, width: nat)
    ensures Cut(v + k * U64, width) == Cut(v, width)
  {
    assert k * U64 == (k * U32) * U32;
  }

  lemma BaseWord(newBase: nat, width: nat) returns (w: nat)
    requires newBase < U64 && (width == 0 || width == 4 || width == 8)
    ensures w == Wrap(newBase, width)
    ensures w == if width == 8 then newBase else if width == 4 then newBase % U32 else 0
  {
    w := Wrap(newBase, width);
    if width != 0 {
      WrapIsCut(newBase, width);
      Residues(newBase);
    }
  }

  lemma Residues(v: nat)
    requires v < U64
    ensures Cut(v, 8) == v && Cut(v, 4) == v % U32
  {
  }

  lemma NothingWritten(raw: seq<byte>, v: nat)
    ensures Write(raw, 0, 0, v) == raw
  {
    assert raw[..0] + [] + raw[0..] == raw;
  }

  lemma MovedAlike(raw: seq<byte>, regions: seq<Region>, delta: int, d: int, k: int, moved: seq<byte>)
    requires AllOk(regions, |raw|) && delta == d + k * U64 && moved == MoveAll(raw, regions, delta)
    ensures moved == MoveAll(raw, regions, d)
  {
    SameMove(raw, regions, d, delta, k);
  }

  /** The walk and the header make a rebase. */
  lemma MakesRebase(img: Layout, raw: seq<byte>, dir: nat, base: nat, newBase: nat, moved: seq<byte>, h: Region, r: seq<byte>)
    requires HasDirectory(img, raw, dir) && AllOk(DirFixes(img, raw, dir, 0), |raw|)
    requires base != newBase && moved == MoveAll(raw, DirFixes(img, raw, dir, 0), newBase - base)
    requires h == HeaderField(img, moved) && r == Write(moved, h.pos, h.width, Wrap(newBase, h.width))
    ensures r == Rebased(img, raw, dir, base, newBase)
  {
  }

  function Signed64(x: int): int {
    if x >= U64 / 2 then x - U64 else x
  }

  lemma SignedDifference(a: nat, b: nat) returns (k: int)
    requires a < U64 && b < U64
    ensures Signed64((a - b) % U64) == (a - b) + k * U64
  {
    k := if a < b then 1 else 0;
    if Signed64((a - b) % U64) != (a - b) + k * U64 {
      k := k - 1;
    }
  }

  lemma Widths()
    ensures Pow256(4) == U32 && Pow256(8) == U64
  {
    assert Pow256(1) == 256;
    assert Pow256(2) == 256 * Pow256(1);
    assert Pow256(3) == 256 * Pow256(2);
    assert Pow256(4) == 256 * Pow256(3);
    assert Pow256(5) == 256 * Pow256(4);
    assert Pow256(6) == 256 * Pow256(5);
    assert Pow256(7) == 256 * Pow256(6);
  }

  lemma SkippedStays(raw: seq<byte>, delta: int)
    ensures Moved(raw, SKIPPED, delta) == raw
  {
    assert raw[..0] + [] + raw[0..] == raw;
  }
}

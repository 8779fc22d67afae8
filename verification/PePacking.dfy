/** A relocation directory as a linker writes it, and what a rebase does to the addresses
    that went into it. */
module PePacking {
  import opened Words
  import opened PeModel
  import opened PeRebase

  // ---- Writing a directory ----

  /** An address that moves with the image, and how wide it is stored: kind 10 stands for
      eight bytes, kind 3 for four, any other for none. */
  datatype Fixup = Fixup(kind: nat, rva: nat)

  function Width(f: Fixup): nat {
    if f.kind == 10 then 8 else if f.kind == 3 then 4 else 0
  }

  /** The fixups within 4096 bytes of an address. */
  datatype Page = Page(rva: nat, fixups: seq<Fixup>) {
    predicate Ok() {
      && rva < U32 && 8 + 2 * |fixups| < U32
      && forall i | 0 <= i < |fixups| :: fixups[i].kind < 16 && rva <= fixups[i].rva < rva + 0x1000
    }
  }

  /** A number in n bytes, the lowest first. */
  function Little(v: nat, n: nat): (s: seq<byte>)
    ensures |s| == n
  {
    if n == 0 then [] else [v % 256] + Little(v / 256, n - 1)
  }

  function PackFixups(page: nat, fixups: seq<Fixup>): (s: seq<byte>)
    requires forall i | 0 <= i < |fixups| :: page <= fixups[i].rva
    ensures |s| == 2 * |fixups|
  {
    if fixups == [] then []
    else
      var last := fixups[|fixups| - 1];
      PackFixups(page, fixups[..|fixups| - 1]) + Little(last.kind * 0x1000 + (last.rva - page), 2)
  }

  function PackPage(p: Page): (s: seq<byte>)
    requires p.Ok()
    ensures |s| == 8 + 2 * |p.fixups|
  {
    Little(p.rva, 4) + Little(8 + 2 * |p.fixups|, 4) + PackFixups(p.rva, p.fixups)
  }

  function Packed(pages: seq<Page>): seq<byte>
    requires forall i | 0 <= i < |pages| :: pages[i].Ok()
  {
    if pages == [] then [] else PackPage(pages[0]) + Packed(pages[1..])
  }

  function AllFixups(pages: seq<Page>): seq<Fixup> {
    if pages == [] then [] else pages[0].fixups + AllFixups(pages[1..])
  }

  // ---- Finding an address ----

  /** The section has bytes in the file for all of rva .. rva + need. */
  predicate HasBytes(s: Section, rva: nat, need: nat) {
    s.data >= 0 && s.va <= rva && rva + need <= s.va + s.rawSize
  }

  /** The address is at `pos` in the file: in the first section that has its bytes, as far
      from the section's start as in memory; -1 if none has them. */
  ghost predicate IsAt(sections: seq<Section>, rva: nat, need: nat, pos: int) {
    if exists i :: 0 <= i < |sections| && HasBytes(sections[i], rva, need) then
      exists i | 0 <= i < |sections| ::
        && HasBytes(sections[i], rva, need) && pos == sections[i].data + (rva - sections[i].va)
        && forall j | 0 <= j < i :: !HasBytes(sections[j], rva, need)
    else pos == -1
  }

  lemma {:induction false} MutFinds(sections: seq<Section>, rva: nat, need: nat)
    ensures IsAt(sections, rva, need, RvaToMut(sections, rva, need))
  {
    if sections != [] {
      if HasBytes(sections[0], rva, need) {
        FoundAt(sections, rva, need, 0);
      } else {
        MutFinds(sections[1..], rva, need);
        FoundLater(sections, rva, need, RvaToMut(sections[1..], rva, need));
      }
    }
  }

  lemma FoundAt(sections: seq<Section>, rva: nat, need: nat, i: nat)
    requires i < |sections| && HasBytes(sections[i], rva, need) && forall j | 0 <= j < i :: !HasBytes(sections[j], rva, need)
    ensures IsAt(sections, rva, need, sections[i].data + (rva - sections[i].va))
  {
  }

  lemma FoundLater(sections: seq<Section>, rva: nat, need: nat, pos: int)
    requires sections != [] && !HasBytes(sections[0], rva, need) && IsAt(sections[1..], rva, need, pos)
    ensures IsAt(sections, rva, need, pos)
  {
    var tail := sections[1..];
    if i :| 0 <= i < |tail| && HasBytes(tail[i], rva, need) && pos == tail[i].data + (rva - tail[i].va)
            && forall j | 0 <= j < i :: !HasBytes(tail[j], rva, need) {
      forall j | 0 <= j < i + 1
        ensures !HasBytes(sections[j], rva, need)
      {
        if j > 0 { assert sections[j] == tail[j - 1]; }
      }
      FoundAt(sections, rva, need, i + 1);
    } else {
      forall j | 0 <= j < |sections|
        ensures !HasBytes(sections[j], rva, need)
      {
        if j > 0 { assert sections[j] == tail[j - 1]; }
      }
    }
  }

  /** A single address, as the walk over the directory looks one up. */
  lemma {:induction false} PosFinds(sections: seq<Section>, rva: nat)
    ensures IsAt(sections, rva, 1, RvaToPos(sections, rva))
  {
    if sections != [] {
      if HasBytes(sections[0], rva, 1) {
        FoundAt(sections, rva, 1, 0);
      } else {
        PosFinds(sections[1..], rva);
        FoundLater(sections, rva, 1, RvaToPos(sections[1..], rva));
      }
    }
  }

  // ---- Reading it back ----

  lemma LittleWord(raw: seq<byte>, at: nat, v: nat)
    requires at + 2 <= |raw| && v < 0x1_0000 && raw[at..at + 2] == Little(v, 2)
    ensures Word(raw, at) == v
  {
    assert raw[at] == raw[at..at + 2][0] && raw[at + 1] == raw[at..at + 2][1];
  }

  lemma LittleDword(raw: seq<byte>, at: nat, v: nat)
    requires at + 4 <= |raw| && v < U32 && raw[at..at + 4] == Little(v, 4)
    ensures Dword(raw, at) == v
  {
    assert Little(v, 4) == Little(v % 0x1_0000, 2) + Little(v / 0x1_0000, 2) by { LittleParts(v); }
    assert raw[at..at + 2] == raw[at..at + 4][..2] && raw[at + 2..at + 4] == raw[at..at + 4][2..];
    LittleWord(raw, at, v % 0x1_0000);
    LittleWord(raw, at + 2, v / 0x1_0000);
  }

  lemma LittleParts(v: nat)
    ensures Little(v, 4) == Little(v % 0x1_0000, 2) + Little(v / 0x1_0000, 2)
  {
    LittleTwo(v % 0x1_0000);
    LowBytes(v);
    assert Little(v, 4) == [v % 256] + ([v / 256 % 256] + Little(v / 256 / 256, 2));
  }

  lemma LittleTwo(v: nat)
    ensures Little(v, 2) == [v % 256, v / 256 % 256]
  {
  }

  lemma LowBytes(v: nat)
    ensures v % 0x1_0000 % 256 == v % 256 && v % 0x1_0000 / 256 % 256 == v / 256 % 256 && v / 256 / 256 == v / 0x1_0000
  {
    var a, b, c := v % 256, v / 256 % 256, v / 256 / 256;
    DivModUnique(v, 0x1_0000, c, 256 * b + a);
    DivModUnique(256 * b + a, 256, b, a);
  }

  /** What is listed for one fixup: its bytes in the file, or nothing. */
  ghost predicate Lists(sections: seq<Section>, f: Fixup, r: Region) {
    if Width(f) == 0 then r == SKIPPED
    else if r == SKIPPED then IsAt(sections, f.rva, Width(f), -1)
    else r.width == Width(f) && IsAt(sections, f.rva, Width(f), r.pos)
  }

  ghost predicate ListsEach(key: Key, sections: seq<Section>, fixups: seq<Fixup>, regions: seq<Region>) {
    |regions| == |fixups| && forall i | 0 <= i < |fixups| :: Lists(sections, fixups[i], regions[i])
  }

  /** The same for all of them, one by one; kept under a key. */
  ghost predicate ListsAll(sections: seq<Section>, fixups: seq<Fixup>, regions: seq<Region>) {
    exists key: Key {:trigger ListsEach(key, sections, fixups, regions)} :: ListsEach(key, sections, fixups, regions)
  }

  lemma FoundLists(sections: seq<Section>, f: Fixup, pos: int)
    requires pos >= -1 && IsAt(sections, f.rva, Width(f), pos)
    ensures Lists(sections, f, if Width(f) == 0 then SKIPPED else Found(pos, Width(f)))
  {
  }

  lemma EntryLists(img: Layout, page: nat, f: Fixup, e: nat) returns (r: Region)
    requires f.kind < 16 && page <= f.rva < page + 0x1000 && e == f.kind * 0x1000 + (f.rva - page)
    ensures r == EntryFix(img, page, e) && ListsAll(img.sections, [f], [r])
  {
    r := EntryFix(img, page, e);
    DivModUnique(e, 0x1000, f.kind, f.rva - page);
    MutFinds(img.sections, f.rva, Width(f));
    var pos := RvaToMut(img.sections, f.rva, Width(f));
    assert r == if Width(f) == 0 then SKIPPED else Found(pos, Width(f));
    FoundLists(img.sections, f, pos);
    assert ListsEach(Key, img.sections, [f], [r]);
  }

  /** Two parts of a stretch of bytes. */
  lemma TwoParts(raw: seq<byte>, at: nat, head: seq<byte>, last: seq<byte>)
    requires at + |head| + |last| <= |raw| && raw[at..at + |head| + |last|] == head + last
    ensures raw[at..at + |head|] == head && raw[at + |head|..at + |head| + |last|] == last
  {
    var all := raw[at..at + |head| + |last|];
    assert raw[at..at + |head|] == all[..|head|] && raw[at + |head|..at + |head| + |last|] == all[|head|..];
  }

  lemma LastWord(raw: seq<byte>, at: nat, n: nat, head: seq<byte>, e: nat)
    requires |head| == 2 * n && at + 2 * n + 2 <= |raw| && e < 0x1_0000 && raw[at..at + 2 * (n + 1)] == head + Little(e, 2)
    ensures raw[at..at + 2 * n] == head && Word(raw, at + 2 * n) == e
  {
    TwoParts(raw, at, head, Little(e, 2));
    LittleWord(raw, at + 2 * n, e);
  }

  lemma {:induction false} BlockLists(img: Layout, raw: seq<byte>, page: nat, fixups: seq<Fixup>, at: nat) returns (regions: seq<Region>)
    requires at + 2 * |fixups| <= |raw|
    requires forall i | 0 <= i < |fixups| :: fixups[i].kind < 16 && page <= fixups[i].rva < page + 0x1000
    requires raw[at..at + 2 * |fixups|] == PackFixups(page, fixups)
    ensures regions == BlockFixes(img, raw, page, at, |fixups|) && ListsAll(img.sections, fixups, regions)
    decreases |fixups|
  {
    if fixups == [] {
      ListsNothing(img.sections);
      regions := [];
    } else {
      var n := |fixups| - 1;
      var head, f := fixups[..n], fixups[n];
      var e := f.kind * 0x1000 + (f.rva - page);
      LastWord(raw, at, n, PackFixups(page, head), e);
      var before := BlockLists(img, raw, page, head, at);
      var last := EntryLists(img, page, f, e);
      regions := before + [last];
      LastOf(fixups);
      ListsMore(img.sections, head, before, [f], [last], fixups, regions);
      BlockGrows(img, raw, page, at, n, before, last);
    }
  }

  lemma LastOf(fixups: seq<Fixup>)
    requires fixups != []
    ensures fixups == fixups[..|fixups| - 1] + [fixups[|fixups| - 1]]
  {
  }

  lemma BlockGrows(img: Layout, raw: seq<byte>, page: nat, at: nat, n: nat, before: seq<Region>, last: Region)
    requires at + 2 * (n + 1) <= |raw| && before == BlockFixes(img, raw, page, at, n)
    requires last == EntryFix(img, page, Word(raw, at + 2 * n))
    ensures BlockFixes(img, raw, page, at, n + 1) == before + [last]
  {
  }

  lemma ListsMore(sections: seq<Section>, a: seq<Fixup>, r: seq<Region>, b: seq<Fixup>, s: seq<Region>,
                  all: seq<Fixup>, regions: seq<Region>)
    requires ListsAll(sections, a, r) && ListsAll(sections, b, s) && all == a + b && regions == r + s
    ensures ListsAll(sections, all, regions)
  {
    forall i | 0 <= i < |all|
      ensures Lists(sections, all[i], regions[i])
    {
      if i < |a| {
        assert Lists(sections, a[i], r[i]);
      } else {
        assert Lists(sections, b[i - |a|], s[i - |a|]);
      }
    }
    assert ListsEach(Key, sections, all, regions);
  }

  lemma ListsNothing(sections: seq<Section>)
    ensures ListsAll(sections, [], [])
  {
    assert ListsEach(Key, sections, [], []);
  }

  /** The head of a page's block. */
  lemma HeadReads(img: Layout, raw: seq<byte>, dir: nat, off: nat, p: Page)
    requires dir + img.relocSize <= |raw| && p.Ok()
    requires off + |PackPage(p)| <= img.relocSize && raw[dir + off..dir + off + |PackPage(p)|] == PackPage(p)
    ensures BlockAt(img, raw, dir, off) && PageOf(raw, dir + off) == p.rva && SizeOf(raw, dir + off) == 8 + 2 * |p.fixups|
    ensures raw[dir + off + 8..dir + off + 8 + 2 * |p.fixups|] == PackFixups(p.rva, p.fixups)
  {
    var at, size := dir + off, 8 + 2 * |p.fixups|;
    TwoParts(raw, at, Little(p.rva, 4) + Little(size, 4), PackFixups(p.rva, p.fixups));
    TwoParts(raw, at, Little(p.rva, 4), Little(size, 4));
    LittleDword(raw, at, p.rva);
    LittleDword(raw, at + 4, size);
  }

  lemma BlockComesFirst(img: Layout, raw: seq<byte>, dir: nat, off: nat, next: nat, page: nat, n: nat, rest: seq<Region>)
    returns (block: seq<Region>)
    requires dir + img.relocSize <= |raw| && BlockAt(img, raw, dir, off) && next == off + 8 + 2 * n
    requires PageOf(raw, dir + off) == page && SizeOf(raw, dir + off) == 8 + 2 * n && rest == DirFixes(img, raw, dir, next)
    ensures block == BlockFixes(img, raw, page, dir + off + 8, n) && DirFixes(img, raw, dir, off) == block + rest
  {
    assert Entries(8 + 2 * n) == n;
    FromHead(img, raw, dir, off);
    block := BlockFixes(img, raw, page, dir + off + 8, n);
  }

  lemma {:induction false} RestLists(img: Layout, raw: seq<byte>, dir: nat, off: nat, pages: seq<Page>) returns (regions: seq<Region>)
    requires forall i | 0 <= i < |pages| :: pages[i].Ok()
    requires dir + img.relocSize <= |raw| && off + |Packed(pages)| == img.relocSize
    requires raw[dir + off..dir + off + |Packed(pages)|] == Packed(pages)
    ensures regions == DirFixes(img, raw, dir, off) && ListsAll(img.sections, AllFixups(pages), regions)
    decreases |pages|
  {
    if pages == [] {
      ListsNothing(img.sections);
      regions := [];
    } else {
      var p, tail, next := pages[0], pages[1..], off + 8 + 2 * |pages[0].fixups|;
      TwoParts(raw, dir + off, PackPage(p), Packed(tail));
      HeadReads(img, raw, dir, off, p);
      var rest := RestLists(img, raw, dir, next, tail);
      var block := BlockComesFirst(img, raw, dir, off, next, p.rva, |p.fixups|, rest);
      var _ := BlockLists(img, raw, p.rva, p.fixups, dir + off + 8);
      regions := block + rest;
      ListsMore(img.sections, p.fixups, block, AllFixups(tail), rest, AllFixups(pages), regions);
    }
  }

  /** A directory lists exactly the fixups that were packed into it, in order: for kind 10
      the eight bytes of the address in the file, for kind 3 the four bytes, and nothing
      for other kinds and for addresses without bytes. */
  lemma PackedLists(img: Layout, raw: seq<byte>, dir: nat, pages: seq<Page>)
    requires forall i | 0 <= i < |pages| :: pages[i].Ok()
    requires img.relocSize == |Packed(pages)| && dir + img.relocSize <= |raw| && raw[dir..dir + img.relocSize] == Packed(pages)
    ensures ListsAll(img.sections, AllFixups(pages), DirFixes(img, raw, dir, 0))
  {
    var _ := RestLists(img, raw, dir, 0, pages);
  }

  // ---- What a rebase does to them ----

  /** The header's place for the base: eight bytes at 48 from the PE signature in a 64-bit
      image, four bytes at 52 in a 32-bit one. */
  predicate BaseIs(img: Layout, raw: seq<byte>, base: nat) {
    |raw| > 0x100 && Read(raw, 0x3C, 4) + 60 <= |raw| ==>
      if img.is64 then Read(raw, Read(raw, 0x3C, 4) + 0x30, 8) == Wrap(base, 8)
      else Read(raw, Read(raw, 0x3C, 4) + 0x34, 4) == Wrap(base, 4)
  }

  lemma DwordReads(raw: seq<byte>, at: nat)
    requires at + 4 <= |raw|
    ensures Dword(raw, at) == Read(raw, at, 4)
  {
    assert Read(raw, at + 4, 0) == 0;
    assert Read(raw, at + 2, 2) == raw[at + 2] as int + 256 * (raw[at + 3] as int);
  }

  lemma HeaderIsBase(img: Layout, raw: seq<byte>, base: nat)
    ensures HeaderSays(img, raw, base) <==> BaseIs(img, raw, base)
  {
    if |raw| > 0x100 {
      DwordReads(raw, 0x3C);
    }
  }

  /** A rebase moves the address under every fixup by the difference of the bases, in the
      width of its kind, and the base in the header. */
  lemma RebaseMovesFixups(img: Layout, raw: seq<byte>, dir: nat, pages: seq<Page>, base: nat, newBase: nat, k: nat, pos: nat, width: nat)
    requires WellFormed(img, raw, dir) && BaseIs(img, raw, base)
    requires forall i | 0 <= i < |pages| :: pages[i].Ok()
    requires img.relocSize == |Packed(pages)| && raw[dir..dir + img.relocSize] == Packed(pages)
    requires k < |AllFixups(pages)| && width == Width(AllFixups(pages)[k]) > 0
    requires IsAt(img.sections, AllFixups(pages)[k].rva, width, pos)
    ensures var r := Rebased(img, raw, dir, base, newBase);
            && pos + width <= |raw| && Read(r, pos, width) == Wrap(Read(raw, pos, width) + (newBase - base), width)
            && BaseIs(img, r, newBase)
  {
    FixupIsTarget(img, raw, dir, pages, k, pos, width);
    var r := RebaseMovesTarget(img, raw, dir, base, newBase, k, pos, width);
  }

  lemma FixupIsTarget(img: Layout, raw: seq<byte>, dir: nat, pages: seq<Page>, k: nat, pos: nat, width: nat)
    requires dir + img.relocSize <= |raw| && (forall i | 0 <= i < |pages| :: pages[i].Ok())
    requires img.relocSize == |Packed(pages)| && raw[dir..dir + img.relocSize] == Packed(pages)
    requires k < |AllFixups(pages)| && width == Width(AllFixups(pages)[k]) > 0
    requires IsAt(img.sections, AllFixups(pages)[k].rva, width, pos)
    ensures k < |DirFixes(img, raw, dir, 0)| && DirFixes(img, raw, dir, 0)[k] == Region(pos, width)
  {
    PackedLists(img, raw, dir, pages);
    ListedAt(img.sections, AllFixups(pages), DirFixes(img, raw, dir, 0), k, pos, width);
  }

  lemma RebaseMovesTarget(img: Layout, raw: seq<byte>, dir: nat, base: nat, newBase: nat, k: nat, pos: nat, width: nat)
    returns (r: seq<byte>)
    requires WellFormed(img, raw, dir) && BaseIs(img, raw, base)
    requires k < |DirFixes(img, raw, dir, 0)| && DirFixes(img, raw, dir, 0)[k] == Region(pos, width)
    ensures r == Rebased(img, raw, dir, base, newBase) && pos + width <= |raw|
    ensures Read(r, pos, width) == Wrap(Read(raw, pos, width) + (newBase - base), width) && BaseIs(img, r, newBase)
  {
    r := Rebased(img, raw, dir, base, newBase);
    HeaderIsBase(img, raw, base);
    RebaseKeepsShape(img, raw, dir, base, newBase);
    HeaderIsBase(img, r, newBase);
    TargetMoves(img, raw, r, dir, newBase - base, k, pos, width);
  }

  lemma TargetMoves(img: Layout, raw: seq<byte>, r: seq<byte>, dir: nat, delta: int, k: nat, pos: nat, width: nat)
    requires dir + img.relocSize <= |raw| && Shift(raw, r, Targets(img, raw, dir), delta)
    requires k < |DirFixes(img, raw, dir, 0)| && Region(pos, width) == DirFixes(img, raw, dir, 0)[k]
    ensures pos + width <= |raw| == |r| && Read(r, pos, width) == Wrap(Read(raw, pos, width) + delta, width)
  {
    IsShift(raw, r, Targets(img, raw, dir), delta);
    assert Targets(img, raw, dir)[k] == Region(pos, width);
    IsWordMoved(raw, r, Region(pos, width), delta);
  }

  lemma ListedAt(sections: seq<Section>, fixups: seq<Fixup>, regions: seq<Region>, k: nat, pos: nat, width: nat)
    requires ListsAll(sections, fixups, regions) && k < |fixups| && width == Width(fixups[k]) > 0
    requires IsAt(sections, fixups[k].rva, width, pos)
    ensures k < |regions| && regions[k] == Region(pos, width)
  {
    var r := regions[k];
    OnePlace(sections, fixups[k].rva, width, if r == SKIPPED then -1 else r.pos, pos);
  }

  lemma OnePlace(sections: seq<Section>, rva: nat, need: nat, a: int, b: int)
    ensures IsAt(sections, rva, need, a) && IsAt(sections, rva, need, b) ==> a == b
  {
  }
}

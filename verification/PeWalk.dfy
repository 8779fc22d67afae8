/** The walk over the relocation directory, against the list of its fixups: how far it
    has come, and what is left. */
module PeWalk {
  import opened Words
  import opened PeModel
  import opened PeRebase

  // ---- How far the walk has come ----

  /** The first k fixups have been applied to raw0, giving `now`. */
  ghost predicate Applied(img: Layout, raw0: seq<byte>, dir: nat, all: seq<Region>, k: nat, now: seq<byte>, delta: int) {
    && WellFormed(img, raw0, dir) && all == DirFixes(img, raw0, dir, 0)
    && k <= |all| && AllOk(all, |raw0|) && now == MoveAll(raw0, all[..k], delta)
  }

  predicate AskedDone(key: Key, raw0: seq<byte>, now: seq<byte>) {
    true
  }

  ghost predicate Known(key: Key, img: Layout, raw0: seq<byte>, dir: nat, all: seq<Region>, k: nat, now: seq<byte>, delta: int) {
    forall q: Key {:trigger AskedDone(q, raw0, now)} :: AskedDone(q, raw0, now) ==> Applied(img, raw0, dir, all, k, now, delta)
  }

  /** Applied, kept under a key. */
  ghost predicate Done(img: Layout, raw0: seq<byte>, dir: nat, all: seq<Region>, k: nat, now: seq<byte>, delta: int) {
    && |now| == |raw0| && k <= |all| && dir + img.relocSize <= |raw0| && SectionsOk(img.sections, |raw0|)
    && exists key: Key {:trigger Known(key, img, raw0, dir, all, k, now, delta)} :: Known(key, img, raw0, dir, all, k, now, delta)
  }

  lemma IsDone(img: Layout, raw0: seq<byte>, dir: nat, all: seq<Region>, k: nat, now: seq<byte>, delta: int)
    requires Done(img, raw0, dir, all, k, now, delta)
    ensures Applied(img, raw0, dir, all, k, now, delta)
  {
    assert AskedDone(Key, raw0, now);
  }

  lemma MakesDone(img: Layout, raw0: seq<byte>, dir: nat, all: seq<Region>, k: nat, now: seq<byte>, delta: int)
    requires Applied(img, raw0, dir, all, k, now, delta)
    ensures Done(img, raw0, dir, all, k, now, delta)
  {
    assert Known(Key, img, raw0, dir, all, k, now, delta);
  }

  lemma DoneAtStart(img: Layout, raw0: seq<byte>, dir: nat, delta: int) returns (all: seq<Region>)
    requires WellFormed(img, raw0, dir)
    ensures Done(img, raw0, dir, all, 0, raw0, delta) && Left(img, raw0, dir, 0, all, 0)
  {
    TargetsOk(img, raw0, dir);
    IsSound(img, raw0, dir);
    all := DirFixes(img, raw0, dir, 0);
    MakesDone(img, raw0, dir, all, 0, raw0, delta);
    assert all[0..] == all;
    MakesLeft(img, raw0, dir, 0, all, 0);
  }

  lemma DoneAtEnd(img: Layout, raw0: seq<byte>, dir: nat, all: seq<Region>, now: seq<byte>, delta: int)
    requires Done(img, raw0, dir, all, |all|, now, delta)
    ensures AllOk(DirFixes(img, raw0, dir, 0), |raw0|) && now == MoveAll(raw0, DirFixes(img, raw0, dir, 0), delta)
  {
    IsDone(img, raw0, dir, all, |all|, now, delta);
    assert all[..|all|] == all;
  }

  lemma DoneNext(img: Layout, raw0: seq<byte>, dir: nat, all: seq<Region>, k: nat, now: seq<byte>, next: seq<byte>, delta: int)
    requires Done(img, raw0, dir, all, k, now, delta) && k < |all| && RegionOk(all[k], |now|)
    requires next == Moved(now, all[k], delta)
    ensures Done(img, raw0, dir, all, k + 1, next, delta)
  {
    IsDone(img, raw0, dir, all, k, now, delta);
    assert all[..k + 1][..k] == all[..k];
    MakesDone(img, raw0, dir, all, k + 1, next, delta);
  }

  /** Fixups done so far have not touched the directory. */
  lemma DirectoryStays(img: Layout, raw0: seq<byte>, dir: nat, all: seq<Region>, k: nat, now: seq<byte>, delta: int)
    requires Done(img, raw0, dir, all, k, now, delta)
    ensures Agree(raw0, now, dir, dir + img.relocSize)
  {
    IsDone(img, raw0, dir, all, k, now, delta);
    SomeElsewhere(img, raw0, dir, dir + img.relocSize, all, k, all[..k], now, delta);
  }

  lemma SomeElsewhere(img: Layout, raw0: seq<byte>, dir: nat, end: nat, all: seq<Region>, k: nat, some: seq<Region>,
                      now: seq<byte>, delta: int)
    requires WellFormed(img, raw0, dir) && all == DirFixes(img, raw0, dir, 0) && k <= |all| && some == all[..k]
    requires AllOk(some, |raw0|) && now == MoveAll(raw0, some, delta) && end == dir + img.relocSize
    ensures Agree(raw0, now, dir, end)
  {
    FixesElsewhere(img, raw0, dir, all, k);
    AppliedElsewhere(raw0, now, some, delta, dir, end);
  }

  lemma FixesElsewhere(img: Layout, raw0: seq<byte>, dir: nat, all: seq<Region>, k: nat)
    requires WellFormed(img, raw0, dir) && all == DirFixes(img, raw0, dir, 0) && k <= |all|
    ensures Disjoint(all[..k]) && forall p | dir <= p < dir + img.relocSize :: Outside(p, all[..k])
    ensures AllOk(all[..k], |raw0|)
  {
    TargetsOk(img, raw0, dir);
    IsSound(img, raw0, dir);
    SomeFixes(all, HeaderField(img, raw0), k, dir, img.relocSize);
  }

  lemma AppliedElsewhere(raw0: seq<byte>, now: seq<byte>, some: seq<Region>, delta: int, lo: nat, hi: nat)
    requires AllOk(some, |raw0|) && Disjoint(some) && now == MoveAll(raw0, some, delta) && lo <= hi <= |raw0|
    requires forall p | lo <= p < hi :: Outside(p, some)
    ensures Agree(raw0, now, lo, hi)
  {
    MovedAll(raw0, now, some, delta);
    UntouchedRange(raw0, now, some, lo, hi);
  }

  lemma SomeFixes(all: seq<Region>, h: Region, k: nat, dir: nat, size: nat)
    requires k <= |all| && Disjoint(all)
    requires forall i | 0 <= i < |all + [h]| :: Apart((all + [h])[i], Region(dir, size))
    ensures Disjoint(all[..k]) && forall p | dir <= p < dir + size :: Outside(p, all[..k])
  {
    var some := all[..k];
    assert forall i | 0 <= i < k :: some[i] == all[i] == (all + [h])[i];
    assert forall i | 0 <= i < k :: Apart(some[i], Region(dir, size));
  }

  // ---- What is left ----

  ghost predicate Ahead(img: Layout, raw0: seq<byte>, dir: nat, off: nat, all: seq<Region>, k: nat) {
    && dir + img.relocSize <= |raw0| && k <= |all| && off <= img.relocSize
    && PagesFit(img, raw0, dir, off) && all[k..] == DirFixes(img, raw0, dir, off)
  }

  predicate AskedLeft(key: Key, raw0: seq<byte>, off: nat) {
    true
  }

  ghost predicate KnownLeft(key: Key, img: Layout, raw0: seq<byte>, dir: nat, off: nat, all: seq<Region>, k: nat) {
    forall q: Key {:trigger AskedLeft(q, raw0, off)} :: AskedLeft(q, raw0, off) ==> Ahead(img, raw0, dir, off, all, k)
  }

  /** From `off` on the directory lists the fixups from the k-th on; kept under a key. */
  ghost predicate Left(img: Layout, raw0: seq<byte>, dir: nat, off: nat, all: seq<Region>, k: nat) {
    && off <= img.relocSize
    && exists key: Key {:trigger KnownLeft(key, img, raw0, dir, off, all, k)} :: KnownLeft(key, img, raw0, dir, off, all, k)
  }

  lemma IsLeft(img: Layout, raw0: seq<byte>, dir: nat, off: nat, all: seq<Region>, k: nat)
    requires Left(img, raw0, dir, off, all, k)
    ensures Ahead(img, raw0, dir, off, all, k)
  {
    assert AskedLeft(Key, raw0, off);
  }

  lemma MakesLeft(img: Layout, raw0: seq<byte>, dir: nat, off: nat, all: seq<Region>, k: nat)
    requires Ahead(img, raw0, dir, off, all, k)
    ensures Left(img, raw0, dir, off, all, k)
  {
    assert KnownLeft(Key, img, raw0, dir, off, all, k);
  }

  /** The k-th fixups on are the entries of a block. */
  ghost predicate BlockIs(img: Layout, raw0: seq<byte>, page: nat, at: nat, n: nat, all: seq<Region>, k: nat) {
    at + 2 * n <= |raw0| && k + n <= |all| && all[k..k + n] == BlockFixes(img, raw0, page, at, n)
  }

  lemma EntryIs(img: Layout, raw0: seq<byte>, page: nat, at: nat, n: nat, all: seq<Region>, k: nat, i: nat)
    requires BlockIs(img, raw0, page, at, n, all, k) && i < n
    ensures all[k + i] == EntryFix(img, page, Word(raw0, at + 2 * i))
  {
    BlockFixAt(img, raw0, page, at, n, i);
    assert all[k + i] == all[k..k + n][i];
  }

  lemma {:induction false} BlockFixAt(img: Layout, raw: seq<byte>, page: nat, at: nat, n: nat, i: nat)
    requires at + 2 * n <= |raw| && i < n
    ensures BlockFixes(img, raw, page, at, n)[i] == EntryFix(img, page, Word(raw, at + 2 * i))
    decreases n
  {
    if i < n - 1 {
      BlockFixAt(img, raw, page, at, n - 1, i);
    }
  }

  /** The next block, from its head; or the reason why there is none. */
  lemma NextBlock(img: Layout, raw0: seq<byte>, dir: nat, off: nat, blk: nat, all: seq<Region>, k: nat, page: nat, size: nat)
    requires Left(img, raw0, dir, off, all, k) && off + 8 <= img.relocSize && dir + img.relocSize <= |raw0|
    requires blk == dir + off && page == Dword(raw0, blk) && size == Dword(raw0, blk + 4)
    ensures off + size < U32
    ensures 8 <= size && off + size <= img.relocSize ==>
              && blk + 8 + 2 * Entries(size) <= dir + img.relocSize
              && page + 0x1008 <= U32 && BlockIs(img, raw0, page, blk + 8, Entries(size), all, k)
              && Left(img, raw0, dir, off + size, all, k + Entries(size))
    ensures !(8 <= size && off + size <= img.relocSize) ==> k == |all|
  {
    IsLeft(img, raw0, dir, off, all, k);
    HeadFits(img, raw0, dir, off, blk, page, size);
    HeadFixes(img, raw0, dir, off, blk, page, size);
    if 8 <= size && off + size <= img.relocSize {
      SplitFixes(all, k, BlockFixes(img, raw0, page, blk + 8, Entries(size)), DirFixes(img, raw0, dir, off + size));
      MakesLeft(img, raw0, dir, off + size, all, k + Entries(size));
    }
  }

  lemma HeadFits(img: Layout, raw0: seq<byte>, dir: nat, off: nat, blk: nat, page: nat, size: nat)
    requires dir + img.relocSize <= |raw0| && off + 8 <= img.relocSize && PagesFit(img, raw0, dir, off)
    requires blk == dir + off && page == Dword(raw0, blk) && size == Dword(raw0, blk + 4)
    ensures off + size < U32
    ensures 8 <= size && off + size <= img.relocSize ==> page + 0x1008 <= U32 && PagesFit(img, raw0, dir, off + size)
  {
  }

  lemma HeadFixes(img: Layout, raw0: seq<byte>, dir: nat, off: nat, blk: nat, page: nat, size: nat)
    requires dir + img.relocSize <= |raw0| && off + 8 <= img.relocSize
    requires blk == dir + off && page == Dword(raw0, blk) && size == Dword(raw0, blk + 4)
    ensures DirFixes(img, raw0, dir, off)
         == if 8 <= size && off + size <= img.relocSize
            then BlockFixes(img, raw0, page, blk + 8, Entries(size)) + DirFixes(img, raw0, dir, off + size) else []
  {
    FromHead(img, raw0, dir, off);
  }

  /** The head as it reads while the file changes. */
  lemma HeadRead(img: Layout, raw0: seq<byte>, dir: nat, off: nat, blk: nat, all: seq<Region>, k: nat,
                 now: seq<byte>, delta: int, page: nat, size: nat)
    requires Done(img, raw0, dir, all, k, now, delta) && Left(img, raw0, dir, off, all, k)
    requires off + 8 <= img.relocSize && blk == dir + off && page == Dword(now, blk) && size == Dword(now, blk + 4)
    ensures off + size < U32
    ensures 8 <= size && off + size <= img.relocSize ==>
              && blk + 8 + 2 * Entries(size) <= dir + img.relocSize
              && page + 0x1008 <= U32 && BlockIs(img, raw0, page, blk + 8, Entries(size), all, k)
              && Left(img, raw0, dir, off + size, all, k + Entries(size))
    ensures !(8 <= size && off + size <= img.relocSize) ==> k == |all|
  {
    DirectoryStays(img, raw0, dir, all, k, now, delta);
    DwordAgrees(raw0, now, dir, dir + img.relocSize, blk);
    DwordAgrees(raw0, now, dir, dir + img.relocSize, blk + 4);
    NextBlock(img, raw0, dir, off, blk, all, k, page, size);
  }

  lemma NothingLeft(img: Layout, raw0: seq<byte>, dir: nat, off: nat, all: seq<Region>, k: nat)
    requires Left(img, raw0, dir, off, all, k) && off + 8 > img.relocSize
    ensures k == |all|
  {
    IsLeft(img, raw0, dir, off, all, k);
  }

  lemma SplitFixes(all: seq<Region>, k: nat, fixes: seq<Region>, rest: seq<Region>)
    requires k <= |all| && all[k..] == fixes + rest
    ensures k + |fixes| <= |all| && all[k..k + |fixes|] == fixes && all[k + |fixes|..] == rest
  {
    assert all[k..k + |fixes|] == all[k..][..|fixes|];
    assert all[k + |fixes|..] == all[k..][|fixes|..];
  }
}

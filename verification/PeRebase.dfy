/** Laws of rebasing: on a well-formed image rebases compose and undo each other, and
    only the words that the directory names, and the header field, change. */
module PeRebase {
  import opened Words
  import opened PeModel

  predicate Apart(r: Region, u: Region) {
    r.pos + r.width <= u.pos || u.pos + u.width <= r.pos
  }

  predicate Covers(r: Region, p: nat) {
    r.pos <= p < r.pos + r.width
  }

  predicate AllOk(regions: seq<Region>, size: nat) {
    forall i | 0 <= i < |regions| :: RegionOk(regions[i], size)
  }

  predicate Disjoint(regions: seq<Region>) {
    forall i, j | 0 <= i < j < |regions| :: Apart(regions[i], regions[j])
  }

  predicate Outside(p: nat, regions: seq<Region>) {
    forall i | 0 <= i < |regions| :: !Covers(regions[i], p)
  }

  function Value(raw: seq<byte>, r: Region): nat
    requires RegionOk(r, |raw|)
  {
    Read(raw, r.pos, r.width)
  }

  // ---- Moving ----

  lemma {:induction false} WrapFits(v: int, width: nat)
    ensures Wrap(v, width) < Pow256(width)
    decreases width
  {
    if width > 0 {
      WrapFits(v / 256, width - 1);
    }
  }

  /** A number that fits is its own residue. */
  lemma {:induction false} WrapOfFitting(v: nat, width: nat)
    requires v < Pow256(width)
    ensures Wrap(v, width) == v
    decreases width
  {
    if width > 0 {
      WrapOfFitting(v / 256, width - 1);
    }
  }

  lemma {:induction false} WrapAdds(v: int, d: int, width: nat)
    ensures Wrap(Wrap(v, width) + d, width) == Wrap(v + d, width)
    decreases width
  {
    if width > 0 {
      var low, rest := v % 256, Wrap(v / 256, width - 1);
      var carry := (low + d) / 256;
      assert (low + 256 * rest + d) / 256 == rest + carry && (low + 256 * rest + d) % 256 == (low + d) % 256;
      assert (v + d) / 256 == v / 256 + carry && (v + d) % 256 == (low + d) % 256;
      WrapAdds(v / 256, carry, width - 1);
    }
  }

  lemma WrapTwice(v: int, d1: int, d2: int, width: nat)
    ensures Wrap(Wrap(v + d1, width) + d2, width) == Wrap(v + (d1 + d2), width)
  {
    WrapAdds(v + d1, d2, width);
    assert v + d1 + d2 == v + (d1 + d2);
  }

  /** It is the residue modulo a power of two: the machine's 32- and 64-bit words. */
  lemma {:induction false} WrapIsMod(v: int, width: nat)
    ensures Wrap(v, width) == v % Pow256(width)
    decreases width
  {
    if width > 0 {
      WrapIsMod(v / 256, width - 1);
      ModOfProduct(v, 256, Pow256(width - 1));
    }
  }

  predicate Untouched(a: seq<byte>, b: seq<byte>, regions: seq<Region>) {
    |a| == |b| && forall p {:trigger Outside(p, regions)} | 0 <= p < |a| && Outside(p, regions) :: b[p] == a[p]
  }

  predicate AskedWord(key: Key, a: seq<byte>, b: seq<byte>, r: Region) {
    true
  }

  ghost predicate WordHolds(key: Key, a: seq<byte>, b: seq<byte>, r: Region, delta: int)
    requires |a| == |b| && RegionOk(r, |a|)
  {
    forall k: Key {:trigger AskedWord(k, a, b, r)} :: AskedWord(k, a, b, r) ==> Value(b, r) == Wrap(Value(a, r) + delta, r.width)
  }

  /** The word at r has moved by delta, modulo its width; kept under a key. */
  ghost predicate WordMoved(a: seq<byte>, b: seq<byte>, r: Region, delta: int)
    requires |a| == |b| && RegionOk(r, |a|)
  {
    exists key: Key {:trigger WordHolds(key, a, b, r, delta)} :: WordHolds(key, a, b, r, delta)
  }

  lemma IsWordMoved(a: seq<byte>, b: seq<byte>, r: Region, delta: int)
    requires |a| == |b| && RegionOk(r, |a|) && WordMoved(a, b, r, delta)
    ensures Value(b, r) == Wrap(Value(a, r) + delta, r.width)
  {
    assert AskedWord(Key, a, b, r);
  }

  lemma MakesWordMoved(a: seq<byte>, b: seq<byte>, r: Region, delta: int)
    requires |a| == |b| && RegionOk(r, |a|) && Value(b, r) == Wrap(Value(a, r) + delta, r.width)
    ensures WordMoved(a, b, r, delta)
  {
    assert WordHolds(Key, a, b, r, delta);
  }

  lemma WordStays(a: seq<byte>, r: Region)
    requires RegionOk(r, |a|)
    ensures WordMoved(a, a, r, 0)
  {
    ReadFits(a, r.pos, r.width);
    WrapOfFitting(Value(a, r), r.width);
    MakesWordMoved(a, a, r, 0);
  }

  lemma WordsAdd(a: seq<byte>, b: seq<byte>, c: seq<byte>, r: Region, d1: int, d2: int)
    requires |a| == |b| == |c| && RegionOk(r, |a|) && WordMoved(a, b, r, d1) && WordMoved(b, c, r, d2)
    ensures WordMoved(a, c, r, d1 + d2)
  {
    IsWordMoved(a, b, r, d1);
    IsWordMoved(b, c, r, d2);
    MovedTwice(a, c, r, Value(a, r), Value(b, r), Value(c, r), d1, d2);
  }

  lemma MovedTwice(a: seq<byte>, c: seq<byte>, r: Region, v: nat, w: nat, u: nat, d1: int, d2: int)
    requires |a| == |c| && RegionOk(r, |a|) && v == Value(a, r) && u == Value(c, r)
    requires w == Wrap(v + d1, r.width) && u == Wrap(w + d2, r.width)
    ensures WordMoved(a, c, r, d1 + d2)
  {
    WrapTwice(v, d1, d2, r.width);
    MakesWordMoved(a, c, r, d1 + d2);
  }

  /** There is only one word to move to. */
  lemma WordUnique(a: seq<byte>, b: seq<byte>, c: seq<byte>, r: Region, delta: int)
    requires |a| == |b| == |c| && RegionOk(r, |a|) && WordMoved(a, b, r, delta) && WordMoved(a, c, r, delta)
    ensures Value(b, r) == Value(c, r)
  {
    IsWordMoved(a, b, r, delta);
    IsWordMoved(a, c, r, delta);
  }

  /** Changes elsewhere do not matter, before and after. */
  lemma WordAfter(a: seq<byte>, b: seq<byte>, c: seq<byte>, others: seq<Region>, r: Region, delta: int)
    requires |a| == |b| == |c| && RegionOk(r, |a|) && WordMoved(a, b, r, delta)
    requires Untouched(b, c, others) && forall i | 0 <= i < |others| :: Apart(others[i], r)
    ensures WordMoved(a, c, r, delta)
  {
    IsWordMoved(a, b, r, delta);
    ApartKeeps(b, c, others, r);
    MakesWordMoved(a, c, r, delta);
  }

  lemma WordBefore(a: seq<byte>, b: seq<byte>, c: seq<byte>, others: seq<Region>, r: Region, delta: int)
    requires |a| == |b| == |c| && RegionOk(r, |a|) && WordMoved(b, c, r, delta)
    requires Untouched(a, b, others) && forall i | 0 <= i < |others| :: Apart(others[i], r)
    ensures WordMoved(a, c, r, delta)
  {
    IsWordMoved(b, c, r, delta);
    ApartKeeps(a, b, others, r);
    MakesWordMoved(a, c, r, delta);
  }

  ghost predicate MovedBy(a: seq<byte>, b: seq<byte>, regions: seq<Region>, delta: int)
    requires |a| == |b| && AllOk(regions, |a|)
  {
    forall i | 0 <= i < |regions| :: WordMoved(a, b, regions[i], delta)
  }

  lemma MovedAt(raw: seq<byte>, r: Region, delta: int, w: seq<byte>)
    requires RegionOk(r, |raw|) && w == Moved(raw, r, delta)
    ensures WordMoved(raw, w, r, delta) && Untouched(raw, w, [r])
  {
    var v := Read(raw, r.pos, r.width);
    WrapFits(v + delta, r.width);
    WrittenMoves(raw, r, delta, v, Wrap(v + delta, r.width), w);
  }

  lemma WrittenMoves(raw: seq<byte>, r: Region, delta: int, v: nat, v': nat, w: seq<byte>)
    requires RegionOk(r, |raw|) && v == Read(raw, r.pos, r.width) && v' == Wrap(v + delta, r.width) && v' < Pow256(r.width)
    requires w == Write(raw, r.pos, r.width, v')
    ensures WordMoved(raw, w, r, delta) && Untouched(raw, w, [r])
  {
    WrittenAt(raw, r, v', w);
    MakesWordMoved(raw, w, r, delta);
  }

  lemma WrittenAt(raw: seq<byte>, r: Region, v: nat, w: seq<byte>)
    requires RegionOk(r, |raw|) && v < Pow256(r.width) && w == Write(raw, r.pos, r.width, v)
    ensures Value(w, r) == v && Untouched(raw, w, [r])
  {
    WriteRead(raw, r.pos, r.width, v);
    OnlyThere(raw, r, v);
  }

  lemma OnlyThere(raw: seq<byte>, r: Region, v: nat)
    requires RegionOk(r, |raw|)
    ensures Untouched(raw, Write(raw, r.pos, r.width, v), [r])
  {
    forall p | 0 <= p < |raw| && Outside(p, [r])
      ensures Write(raw, r.pos, r.width, v)[p] == raw[p]
    {
      assert !Covers([r][0], p);
      WriteElsewhere(raw, r.pos, r.width, v, p);
    }
  }

  lemma UntouchedRange(a: seq<byte>, b: seq<byte>, regions: seq<Region>, lo: nat, hi: nat)
    requires Untouched(a, b, regions) && lo <= hi <= |a|
    requires forall p | lo <= p < hi :: Outside(p, regions)
    ensures a[lo..hi] == b[lo..hi] && Agree(a, b, lo, hi)
  {
    forall p | lo <= p < hi
      ensures a[p] == b[p]
    {
      assert Outside(p, regions);
    }
  }

  /** A region apart from all that is touched keeps its value. */
  lemma ApartKeeps(a: seq<byte>, b: seq<byte>, regions: seq<Region>, u: Region)
    requires Untouched(a, b, regions) && RegionOk(u, |a|)
    requires forall i | 0 <= i < |regions| :: Apart(regions[i], u)
    ensures Value(b, u) == Value(a, u)
  {
    forall p | u.pos <= p < u.pos + u.width
      ensures b[p] == a[p]
    {
      assert Outside(p, regions);
    }
    ReadAgrees(a, b, u.pos, u.width);
  }

  /** Moving disjoint regions moves each of them and nothing else. */
  lemma {:induction false} MoveAllAt(raw: seq<byte>, regions: seq<Region>, delta: int)
    requires AllOk(regions, |raw|) && Disjoint(regions)
    ensures MovedBy(raw, MoveAll(raw, regions, delta), regions, delta)
    ensures Untouched(raw, MoveAll(raw, regions, delta), regions)
    decreases |regions|
  {
    if regions != [] {
      var n := |regions| - 1;
      var before, last := MoveAll(raw, regions[..n], delta), regions[n];
      MoveAllAt(raw, regions[..n], delta);
      MovedAt(before, last, delta, Moved(before, last, delta));
      LastMoved(raw, before, Moved(before, last, delta), regions, delta);
    }
  }

  lemma MovedAll(raw: seq<byte>, r: seq<byte>, regions: seq<Region>, delta: int)
    requires AllOk(regions, |raw|) && Disjoint(regions) && r == MoveAll(raw, regions, delta)
    ensures MovedBy(raw, r, regions, delta) && Untouched(raw, r, regions)
  {
    MoveAllAt(raw, regions, delta);
  }

  lemma LastMoved(raw: seq<byte>, before: seq<byte>, after: seq<byte>, regions: seq<Region>, delta: int)
    requires regions != [] && AllOk(regions, |raw|) && Disjoint(regions) && |before| == |after| == |raw|
    requires MovedBy(raw, before, regions[..|regions| - 1], delta) && Untouched(raw, before, regions[..|regions| - 1])
    requires WordMoved(before, after, regions[|regions| - 1], delta) && Untouched(before, after, [regions[|regions| - 1]])
    ensures MovedBy(raw, after, regions, delta) && Untouched(raw, after, regions)
  {
    var n := |regions| - 1;
    var head, last := regions[..n], regions[n];
    assert regions == head + [last];
    UntouchedJoin(raw, before, after, head, last);
    HeadDisjoint(head, last);
    forall i | 0 <= i < |regions|
      ensures WordMoved(raw, after, regions[i], delta)
    {
      if i < n {
        assert head[i] == regions[i];
        WordAfter(raw, before, after, [last], regions[i], delta);
      } else {
        WordBefore(raw, before, after, head, last, delta);
      }
    }
  }

  lemma UntouchedJoin(a: seq<byte>, b: seq<byte>, c: seq<byte>, head: seq<Region>, last: Region)
    requires Untouched(a, b, head) && Untouched(b, c, [last])
    ensures Untouched(a, c, head + [last])
  {
    forall p | 0 <= p < |a| && Outside(p, head + [last])
      ensures c[p] == a[p]
    {
      assert forall i | 0 <= i < |head| :: (head + [last])[i] == head[i];
      assert (head + [last])[|head|] == last;
      assert Outside(p, head) && Outside(p, [last]);
    }
  }

  lemma HeadDisjoint(fixes: seq<Region>, h: Region)
    requires Disjoint(fixes + [h])
    ensures Disjoint(fixes) && forall i | 0 <= i < |fixes| :: Apart(fixes[i], h)
  {
    var all := fixes + [h];
    assert forall i | 0 <= i < |fixes| :: all[i] == fixes[i];
    assert all[|fixes|] == h;
    assert forall i | 0 <= i < |fixes| :: Apart(all[i], all[|fixes|]);
    assert forall i, j | 0 <= i < j < |fixes| :: Apart(all[i], all[j]);
  }

  /** Bytes that agree outside some regions and in their values are the same. */
  lemma SameBytes(a: seq<byte>, b: seq<byte>, regions: seq<Region>)
    requires AllOk(regions, |a|) && Untouched(a, b, regions)
    requires forall i | 0 <= i < |regions| :: Value(a, regions[i]) == Value(b, regions[i])
    ensures a == b
  {
    forall p | 0 <= p < |a|
      ensures a[p] == b[p]
    {
      if !Outside(p, regions) {
        var i :| 0 <= i < |regions| && Covers(regions[i], p);
        BytesAgree(a, b, regions[i].pos, regions[i].width);
      }
    }
  }

  // ---- Shifts ----

  predicate Asked(key: Key, a: seq<byte>, b: seq<byte>) {
    true
  }

  /** b is a with all regions moved and nothing else changed. The statement is kept
      under a key: it only unfolds where Asked names it. */
  ghost predicate Shift(a: seq<byte>, b: seq<byte>, regions: seq<Region>, delta: int) {
    |a| == |b| && exists key: Key {:trigger Holds(key, a, b, regions, delta)} :: Holds(key, a, b, regions, delta)
  }

  ghost predicate Holds(key: Key, a: seq<byte>, b: seq<byte>, regions: seq<Region>, delta: int)
    requires |a| == |b|
  {
    forall k: Key {:trigger Asked(k, a, b)} :: Asked(k, a, b) ==>
      AllOk(regions, |a|) && MovedBy(a, b, regions, delta) && Untouched(a, b, regions)
  }

  lemma IsShift(a: seq<byte>, b: seq<byte>, regions: seq<Region>, delta: int)
    requires Shift(a, b, regions, delta)
    ensures AllOk(regions, |a|) && MovedBy(a, b, regions, delta) && Untouched(a, b, regions)
  {
    assert Asked(Key, a, b);
  }

  lemma MakesShift(a: seq<byte>, b: seq<byte>, regions: seq<Region>, delta: int)
    requires |a| == |b| && AllOk(regions, |a|) && MovedBy(a, b, regions, delta) && Untouched(a, b, regions)
    ensures Shift(a, b, regions, delta)
  {
    assert Holds(Key, a, b, regions, delta);
  }

  lemma NoShift(a: seq<byte>, regions: seq<Region>)
    requires AllOk(regions, |a|)
    ensures Shift(a, a, regions, 0)
  {
    forall i | 0 <= i < |regions|
      ensures WordMoved(a, a, regions[i], 0)
    {
      WordStays(a, regions[i]);
    }
    MakesShift(a, a, regions, 0);
  }

  lemma ShiftsAdd(a: seq<byte>, b: seq<byte>, c: seq<byte>, regions: seq<Region>, d1: int, d2: int)
    requires Shift(a, b, regions, d1) && Shift(b, c, regions, d2)
    ensures Shift(a, c, regions, d1 + d2)
  {
    IsShift(a, b, regions, d1);
    IsShift(b, c, regions, d2);
    forall i | 0 <= i < |regions|
      ensures WordMoved(a, c, regions[i], d1 + d2)
    {
      WordsAdd(a, b, c, regions[i], d1, d2);
    }
    UntouchedTwice(a, b, c, regions);
    MakesShift(a, c, regions, d1 + d2);
  }

  lemma UntouchedTwice(a: seq<byte>, b: seq<byte>, c: seq<byte>, regions: seq<Region>)
    requires Untouched(a, b, regions) && Untouched(b, c, regions)
    ensures Untouched(a, c, regions)
  {
  }

  /** There is only one shift of given bytes. */
  lemma ShiftUnique(a: seq<byte>, b: seq<byte>, c: seq<byte>, regions: seq<Region>, delta: int)
    requires Shift(a, b, regions, delta) && Shift(a, c, regions, delta)
    ensures b == c
  {
    IsShift(a, b, regions, delta);
    IsShift(a, c, regions, delta);
    forall i | 0 <= i < |regions|
      ensures Value(b, regions[i]) == Value(c, regions[i])
    {
      WordUnique(a, b, c, regions[i], delta);
    }
    SameBytes(b, c, regions);
  }

  // ---- Well-formed images ----

  /** Everything a rebase changes. */
  function Targets(img: Layout, raw: seq<byte>, dir: nat): seq<Region>
    requires dir + img.relocSize <= |raw|
  {
    DirFixes(img, raw, dir, 0) + [HeaderField(img, raw)]
  }

  /** The directory is there. */
  predicate HasDirectory(img: Layout, raw: seq<byte>, dir: nat) {
    && img.relocRva > 0 && img.relocSize > 0
    && SectionsOk(img.sections, |raw|) && dir + img.relocSize <= |raw|
  }

  /** What the directory lists fits into the address space and overlaps neither itself,
      nor the directory, nor the header. */
  predicate Sound(img: Layout, raw: seq<byte>, dir: nat)
    requires dir + img.relocSize <= |raw|
  {
    var targets := Targets(img, raw, dir);
    && PagesFit(img, raw, dir, 0) && Disjoint(targets)
    && forall i | 0 <= i < |targets| ::
         Apart(targets[i], Region(dir, img.relocSize)) && (|raw| > 0x100 ==> Apart(targets[i], Region(0x3C, 4)))
  }

  predicate AskedSound(key: Key, raw: seq<byte>) {
    true
  }

  /** A well-formed image. Like Shift, the second part unfolds only on request. */
  ghost predicate WellFormed(img: Layout, raw: seq<byte>, dir: nat) {
    && HasDirectory(img, raw, dir)
    && forall key {:trigger AskedSound(key, raw)} :: AskedSound(key, raw) ==> Sound(img, raw, dir)
  }

  lemma IsSound(img: Layout, raw: seq<byte>, dir: nat)
    requires WellFormed(img, raw, dir)
    ensures Sound(img, raw, dir)
  {
    assert AskedSound(Key, raw);
  }

  /** The header names the base the image is at. */
  predicate HeaderSays(img: Layout, raw: seq<byte>, base: nat) {
    var h := HeaderField(img, raw);
    Read(raw, h.pos, h.width) == Wrap(base, h.width)
  }

  lemma TargetsOk(img: Layout, raw: seq<byte>, dir: nat)
    requires WellFormed(img, raw, dir)
    ensures AllOk(Targets(img, raw, dir), |raw|) && AllOk(DirFixes(img, raw, dir, 0), |raw|)
    ensures Disjoint(DirFixes(img, raw, dir, 0)) && Disjoint(Targets(img, raw, dir))
  {
    IsSound(img, raw, dir);
    FixesOk(img, raw, dir, 0);
    HeadDisjoint(DirFixes(img, raw, dir, 0), HeaderField(img, raw));
  }

  lemma {:induction false} BlockAgrees(img: Layout, a: seq<byte>, b: seq<byte>, lo: nat, hi: nat, page: nat, at: nat, n: nat)
    requires Agree(a, b, lo, hi) && lo <= at && at + 2 * n <= hi
    ensures BlockFixes(img, a, page, at, n) == BlockFixes(img, b, page, at, n)
    decreases n
  {
    if n > 0 {
      BlockAgrees(img, a, b, lo, hi, page, at, n - 1);
      WordAgrees(a, b, lo, hi, at + 2 * (n - 1));
    }
  }

  /** The fixups from a block on, given its head. */
  function FixesFrom(img: Layout, raw: seq<byte>, dir: nat, off: nat, page: nat, size: nat): seq<Region>
    requires dir + img.relocSize <= |raw| && 8 <= size && off + size <= img.relocSize
  {
    BlockFixes(img, raw, page, dir + off + 8, Entries(size)) + DirFixes(img, raw, dir, off + size)
  }

  lemma FromHead(img: Layout, raw: seq<byte>, dir: nat, off: nat)
    requires dir + img.relocSize <= |raw|
    ensures DirFixes(img, raw, dir, off)
         == if BlockAt(img, raw, dir, off) then FixesFrom(img, raw, dir, off, PageOf(raw, dir + off), SizeOf(raw, dir + off))
            else []
  {
  }

  lemma HeadAgrees(img: Layout, a: seq<byte>, b: seq<byte>, dir: nat, off: nat)
    requires |a| == |b| && dir + img.relocSize <= |a| && off + 8 <= img.relocSize
    requires Agree(a, b, dir, dir + img.relocSize)
    ensures PageOf(a, dir + off) == PageOf(b, dir + off) && SizeOf(a, dir + off) == SizeOf(b, dir + off)
    ensures BlockAt(img, a, dir, off) == BlockAt(img, b, dir, off)
  {
    DwordAgrees(a, b, dir, dir + img.relocSize, dir + off);
    DwordAgrees(a, b, dir, dir + img.relocSize, dir + off + 4);
  }

  /** The walk only looks at the directory. */
  lemma {:induction false} DirAgrees(img: Layout, a: seq<byte>, b: seq<byte>, dir: nat, off: nat)
    requires |a| == |b| && dir + img.relocSize <= |a|
    requires Agree(a, b, dir, dir + img.relocSize)
    ensures DirFixes(img, a, dir, off) == DirFixes(img, b, dir, off)
    decreases img.relocSize - off
  {
    FromHead(img, a, dir, off);
    FromHead(img, b, dir, off);
    if off + 8 <= img.relocSize {
      HeadAgrees(img, a, b, dir, off);
      if BlockAt(img, a, dir, off) {
        var page, size := PageOf(a, dir + off), SizeOf(a, dir + off);
        DirAgrees(img, a, b, dir, off + size);
        RestAgrees(img, a, b, dir, off, page, size);
      }
    }
  }

  lemma RestAgrees(img: Layout, a: seq<byte>, b: seq<byte>, dir: nat, off: nat, page: nat, size: nat)
    requires |a| == |b| && dir + img.relocSize <= |a| && 8 <= size && off + size <= img.relocSize
    requires Agree(a, b, dir, dir + img.relocSize)
    requires DirFixes(img, a, dir, off + size) == DirFixes(img, b, dir, off + size)
    ensures FixesFrom(img, a, dir, off, page, size) == FixesFrom(img, b, dir, off, page, size)
  {
    BlockAgrees(img, a, b, dir, dir + img.relocSize, page, dir + off + 8, Entries(size));
  }

  lemma {:induction false} PagesAgree(img: Layout, a: seq<byte>, b: seq<byte>, dir: nat, off: nat)
    requires |a| == |b| && dir + img.relocSize <= |a|
    requires Agree(a, b, dir, dir + img.relocSize)
    requires PagesFit(img, a, dir, off)
    ensures PagesFit(img, b, dir, off)
    decreases img.relocSize - off
  {
    if off + 8 <= img.relocSize {
      DwordAgrees(a, b, dir, dir + img.relocSize, dir + off);
      DwordAgrees(a, b, dir, dir + img.relocSize, dir + off + 4);
      if BlockAt(img, a, dir, off) {
        PagesAgree(img, a, b, dir, off + SizeOf(a, dir + off));
      }
    }
  }

  lemma HeaderAgrees(img: Layout, a: seq<byte>, b: seq<byte>)
    requires |a| == |b| && (|a| > 0x100 ==> Agree(a, b, 0x3C, 0x40))
    ensures HeaderField(img, a) == HeaderField(img, b)
  {
    if |a| > 0x100 {
      DwordAgrees(a, b, 0x3C, 0x40, 0x3C);
    }
  }

  /** Changing nothing but targets leaves the image well formed, with the same
      targets. */
  lemma ShapeKept(img: Layout, raw: seq<byte>, r: seq<byte>, dir: nat)
    requires WellFormed(img, raw, dir) && Untouched(raw, r, Targets(img, raw, dir))
    ensures WellFormed(img, r, dir) && Targets(img, r, dir) == Targets(img, raw, dir)
    ensures HeaderField(img, r) == HeaderField(img, raw)
  {
    IsSound(img, raw, dir);
    var targets := Targets(img, raw, dir);
    UntouchedRange(raw, r, targets, dir, dir + img.relocSize);
    DirAgrees(img, raw, r, dir, 0);
    PagesAgree(img, raw, r, dir, 0);
    if |raw| > 0x100 {
      UntouchedRange(raw, r, targets, 0x3C, 0x40);
    }
    HeaderAgrees(img, raw, r);
  }

  lemma UntouchedMore(a: seq<byte>, b: seq<byte>, fixes: seq<Region>, h: Region)
    requires Untouched(a, b, fixes)
    ensures Untouched(a, b, fixes + [h])
  {
    forall p | 0 <= p < |a| && Outside(p, fixes + [h])
      ensures b[p] == a[p]
    {
      assert forall i | 0 <= i < |fixes| :: (fixes + [h])[i] == fixes[i];
      assert Outside(p, fixes);
    }
  }

  /** Rebasing shifts all targets by the difference of the bases: every listed word and
      the header field move, and every other byte is unchanged. */
  lemma RebaseShifts(img: Layout, raw: seq<byte>, dir: nat, base: nat, newBase: nat)
    requires WellFormed(img, raw, dir) && HeaderSays(img, raw, base)
    ensures Shift(raw, Rebased(img, raw, dir, base, newBase), Targets(img, raw, dir), newBase - base)
  {
    TargetsOk(img, raw, dir);
    if base == newBase {
      NoShift(raw, Targets(img, raw, dir));
    } else {
      RebaseMoves(img, raw, dir, base, newBase, newBase - base);
    }
  }

  lemma RebaseMoves(img: Layout, raw: seq<byte>, dir: nat, base: nat, newBase: nat, delta: int)
    requires WellFormed(img, raw, dir) && HeaderSays(img, raw, base) && base != newBase && delta == newBase - base
    ensures Shift(raw, Rebased(img, raw, dir, base, newBase), Targets(img, raw, dir), delta)
  {
    TargetsOk(img, raw, dir);
    var fixes, h, all := DirFixes(img, raw, dir, 0), HeaderField(img, raw), Targets(img, raw, dir);
    var moved := MoveAll(raw, fixes, delta);
    MovedAll(raw, moved, fixes, delta);
    UntouchedMore(raw, moved, fixes, h);
    ShapeKept(img, raw, moved, dir);
    RebasedIs(img, raw, dir, base, newBase, fixes, moved, h);
    WithHeader(raw, moved, Rebased(img, raw, dir, base, newBase), fixes, h, all, base, newBase, delta);
  }

  lemma RebasedIs(img: Layout, raw: seq<byte>, dir: nat, base: nat, newBase: nat, fixes: seq<Region>, moved: seq<byte>, h: Region)
    requires HasDirectory(img, raw, dir) && base != newBase
    requires fixes == DirFixes(img, raw, dir, 0) && AllOk(fixes, |raw|) && moved == MoveAll(raw, fixes, newBase - base)
    requires h == HeaderField(img, moved)
    ensures Rebased(img, raw, dir, base, newBase) == Write(moved, h.pos, h.width, Wrap(newBase, h.width))
  {
  }

  lemma WithHeader(raw: seq<byte>, moved: seq<byte>, r: seq<byte>, fixes: seq<Region>, h: Region, all: seq<Region>,
                   base: nat, newBase: nat, delta: int)
    requires |moved| == |raw| && delta == newBase - base && AllOk(all, |raw|) && AllOk(fixes, |raw|) && RegionOk(h, |raw|)
    requires all == fixes + [h] && Disjoint(all)
    requires MovedBy(raw, moved, fixes, delta) && Untouched(raw, moved, fixes)
    requires Value(raw, h) == Wrap(base, h.width) && r == Write(moved, h.pos, h.width, Wrap(newBase, h.width))
    ensures Shift(raw, r, all, delta)
  {
    HeaderMoves(raw, moved, r, fixes, h, base, newBase, delta);
    HeaderAfterFixes(raw, moved, r, fixes, h, all, delta);
  }

  lemma HeaderAfterFixes(raw: seq<byte>, moved: seq<byte>, r: seq<byte>, fixes: seq<Region>, h: Region, all: seq<Region>, delta: int)
    requires all == fixes + [h] && AllOk(all, |raw|) && Disjoint(all) && AllOk(fixes, |raw|) && |moved| == |r| == |raw|
    requires MovedBy(raw, moved, fixes, delta) && Untouched(raw, moved, fixes)
    requires RegionOk(h, |raw|) && WordMoved(moved, r, h, delta) && Untouched(moved, r, [h])
    ensures Shift(raw, r, all, delta)
  {
    assert all[..|all| - 1] == fixes && all[|all| - 1] == h;
    LastMoved(raw, moved, r, all, delta);
    MakesShift(raw, r, all, delta);
  }

  /** Writing the new base moves the header's word, which no fixup has touched. */
  lemma HeaderMoves(raw: seq<byte>, moved: seq<byte>, r: seq<byte>, fixes: seq<Region>, h: Region, base: nat, newBase: nat,
                    delta: int)
    requires delta == newBase - base && Disjoint(fixes + [h]) && Untouched(raw, moved, fixes) && RegionOk(h, |raw|)
    requires Value(raw, h) == Wrap(base, h.width) && r == Write(moved, h.pos, h.width, Wrap(newBase, h.width))
    ensures |r| == |raw| && WordMoved(moved, r, h, delta) && Untouched(moved, r, [h])
  {
    HeadDisjoint(fixes, h);
    ApartKeeps(raw, moved, fixes, h);
    WrapFits(newBase, h.width);
    WrittenAt(moved, h, Wrap(newBase, h.width), r);
    BaseMoves(moved, r, h, base, newBase, delta);
  }

  lemma BaseMoves(moved: seq<byte>, r: seq<byte>, h: Region, base: nat, newBase: nat, delta: int)
    requires |moved| == |r| && RegionOk(h, |r|) && delta == newBase - base
    requires Value(moved, h) == Wrap(base, h.width) && Value(r, h) == Wrap(newBase, h.width)
    ensures WordMoved(moved, r, h, delta)
  {
    BaseResidue(Value(moved, h), Value(r, h), base, newBase, delta, h.width);
    MakesWordMoved(moved, r, h, delta);
  }

  lemma BaseResidue(v: nat, w: nat, base: nat, newBase: nat, delta: int, width: nat)
    requires v == Wrap(base, width) && w == Wrap(newBase, width) && delta == newBase - base
    ensures w == Wrap(v + delta, width)
  {
    WrapAdds(base, delta, width);
  }

  lemma HeaderFollows(img: Layout, raw: seq<byte>, r: seq<byte>, dir: nat, base: nat, newBase: nat)
    requires HasDirectory(img, raw, dir) && |r| == |raw| && HeaderField(img, r) == HeaderField(img, raw)
    requires HeaderSays(img, raw, base) && AllOk(Targets(img, raw, dir), |raw|)
    requires MovedBy(raw, r, Targets(img, raw, dir), newBase - base)
    ensures HeaderSays(img, r, newBase)
  {
    var targets, h := Targets(img, raw, dir), HeaderField(img, raw);
    assert targets[|targets| - 1] == h;
    IsWordMoved(raw, r, h, newBase - base);
    FollowBase(Value(raw, h), Value(r, h), base, newBase, h.width);
  }

  lemma FollowBase(v: nat, w: nat, base: nat, newBase: nat, width: nat)
    requires v == Wrap(base, width) && w == Wrap(v + (newBase - base), width)
    ensures w == Wrap(newBase, width)
  {
    WrapTwice(0, base, newBase - base, width);
  }

  lemma RebaseKeepsShape(img: Layout, raw: seq<byte>, dir: nat, base: nat, newBase: nat)
    requires WellFormed(img, raw, dir) && HeaderSays(img, raw, base)
    ensures var r := Rebased(img, raw, dir, base, newBase);
            && WellFormed(img, r, dir) && HeaderSays(img, r, newBase) && Targets(img, r, dir) == Targets(img, raw, dir)
            && Shift(raw, r, Targets(img, raw, dir), newBase - base)
  {
    RebaseShifts(img, raw, dir, base, newBase);
    ShiftKeepsShape(img, raw, Rebased(img, raw, dir, base, newBase), dir, base, newBase);
  }

  lemma ShiftKeepsShape(img: Layout, raw: seq<byte>, r: seq<byte>, dir: nat, base: nat, newBase: nat)
    requires WellFormed(img, raw, dir) && HeaderSays(img, raw, base)
    requires Shift(raw, r, Targets(img, raw, dir), newBase - base)
    ensures WellFormed(img, r, dir) && HeaderSays(img, r, newBase) && Targets(img, r, dir) == Targets(img, raw, dir)
  {
    IsShift(raw, r, Targets(img, raw, dir), newBase - base);
    ShapeKept(img, raw, r, dir);
    HeaderFollows(img, raw, r, dir, base, newBase);
  }

  lemma SumOfShifts(a: seq<byte>, b: seq<byte>, c: seq<byte>, regions: seq<Region>, d1: int, d2: int, sum: int)
    requires sum == d1 + d2 && Shift(a, b, regions, d1) && Shift(b, c, regions, d2)
    ensures Shift(a, c, regions, sum)
  {
    ShiftsAdd(a, b, c, regions, d1, d2);
  }

  /** A rebase as a shift, with what it leaves well formed. */
  lemma RebaseGives(img: Layout, raw: seq<byte>, dir: nat, targets: seq<Region>, base: nat, newBase: nat) returns (r: seq<byte>)
    requires WellFormed(img, raw, dir) && HeaderSays(img, raw, base) && targets == Targets(img, raw, dir)
    ensures r == Rebased(img, raw, dir, base, newBase)
    ensures Shift(raw, r, targets, newBase - base)
    ensures WellFormed(img, r, dir) && HeaderSays(img, r, newBase) && Targets(img, r, dir) == targets
  {
    r := Rebased(img, raw, dir, base, newBase);
    RebaseKeepsShape(img, raw, dir, base, newBase);
  }

  /** Rebasing to B and then to C is rebasing to C. */
  lemma RebaseComposes(img: Layout, raw: seq<byte>, dir: nat, a: nat, b: nat, c: nat)
    requires WellFormed(img, raw, dir) && HeaderSays(img, raw, a)
    ensures var r := Rebased(img, raw, dir, a, b);
            SectionsOk(img.sections, |r|) && Rebased(img, r, dir, b, c) == Rebased(img, raw, dir, a, c)
  {
    var targets := Targets(img, raw, dir);
    var r := RebaseGives(img, raw, dir, targets, a, b);
    RebaseAgain(img, raw, r, dir, targets, a, b, c);
  }

  lemma RebaseAgain(img: Layout, raw: seq<byte>, r: seq<byte>, dir: nat, targets: seq<Region>, a: nat, b: nat, c: nat)
    requires WellFormed(img, raw, dir) && HeaderSays(img, raw, a) && Targets(img, raw, dir) == targets
    requires WellFormed(img, r, dir) && HeaderSays(img, r, b) && Targets(img, r, dir) == targets
    requires Shift(raw, r, targets, b - a)
    ensures Rebased(img, r, dir, b, c) == Rebased(img, raw, dir, a, c)
  {
    RebaseShifts(img, r, dir, b, c);
    RebaseShifts(img, raw, dir, a, c);
    SameAfter(raw, r, Rebased(img, r, dir, b, c), Rebased(img, raw, dir, a, c), targets, b - a, c - b, c - a);
  }

  /** A second shift adds to the first, and there is only one shift by the sum. */
  lemma SameAfter(raw: seq<byte>, r: seq<byte>, s: seq<byte>, t: seq<byte>, targets: seq<Region>, d1: int, d2: int, sum: int)
    requires Shift(raw, r, targets, d1) && Shift(r, s, targets, d2) && Shift(raw, t, targets, sum) && sum == d1 + d2
    ensures s == t
  {
    SumOfShifts(raw, r, s, targets, d1, d2, sum);
    ShiftUnique(raw, s, t, targets, sum);
  }

  /** Rebasing back restores the original bytes. */
  lemma RebaseUndoes(img: Layout, raw: seq<byte>, dir: nat, a: nat, b: nat)
    requires WellFormed(img, raw, dir) && HeaderSays(img, raw, a)
    ensures var r := Rebased(img, raw, dir, a, b);
            SectionsOk(img.sections, |r|) && Rebased(img, r, dir, b, a) == raw
  {
    RebaseComposes(img, raw, dir, a, b, a);
  }
}

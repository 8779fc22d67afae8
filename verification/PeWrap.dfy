/** The offsets of the directory walk in the source's 32 bits, for every directory: block
    sizes so large that a sum wraps pass the size test. */
module PeWrap {
  import opened Words
  import opened PeModel

  /** One pass of the loop: it ends, or goes on at an offset, having read its entries from
      inside the directory or not. */
  datatype Pass = Ends | Goes(off: nat, inside: bool)

  /** Offsets stay 32-bit values with room for a block's head. */
  predicate HasRoom(img: Layout, raw: seq<byte>, dir: nat) {
    dir + img.relocSize <= |raw| && img.relocSize + 8 < U32
  }

  function NextPass(img: Layout, raw: seq<byte>, dir: nat, off: nat): (p: Pass)
    requires HasRoom(img, raw, dir) && off <= img.relocSize
    ensures p.Goes? ==> p.off <= img.relocSize
  {
    if off + 8 > img.relocSize then Ends
    else
      var size := SizeOf(raw, dir + off);
      if size < 8 || (off + size) % U32 > img.relocSize then Ends
      else Goes((off + size) % U32, off + 8 + 2 * Entries(size) <= img.relocSize)
  }

  /** The walk only goes forward and only reads the directory. */
  predicate Orderly(img: Layout, raw: seq<byte>, dir: nat, off: nat)
    requires HasRoom(img, raw, dir) && off <= img.relocSize
    decreases img.relocSize - off
  {
    match NextPass(img, raw, dir, off)
    case Ends => true
    case Goes(next, inside) => inside && off < next && Orderly(img, raw, dir, next)
  }

  /** No sum of an offset and a size that the walk comes to wraps. */
  predicate SumsFit(img: Layout, raw: seq<byte>, dir: nat, off: nat)
    requires HasRoom(img, raw, dir) && off <= img.relocSize
    decreases img.relocSize - off
  {
    off + 8 <= img.relocSize ==>
      && off + SizeOf(raw, dir + off) < U32
      && (BlockAt(img, raw, dir, off) ==> SumsFit(img, raw, dir, off + SizeOf(raw, dir + off)))
  }

  lemma GoesForward(img: Layout, raw: seq<byte>, dir: nat, off: nat)
    requires HasRoom(img, raw, dir) && off + 8 <= img.relocSize && off + SizeOf(raw, dir + off) < U32
    ensures var size := SizeOf(raw, dir + off);
            NextPass(img, raw, dir, off) == if BlockAt(img, raw, dir, off) then Goes(off + size, true) else Ends
  {
    WrappedSum(off + SizeOf(raw, dir + off));
  }

  lemma WrappedSum(sum: nat)
    requires sum < 2 * U32
    ensures sum % U32 == if sum < U32 then sum else sum - U32
  {
  }

  lemma SizeFits(raw: seq<byte>, at: nat)
    requires at + 8 <= |raw|
    ensures SizeOf(raw, at) < U32
  {
  }

  /** The walk is orderly exactly if no sum wraps. */
  lemma {:induction false} OrderlyExactly(img: Layout, raw: seq<byte>, dir: nat, off: nat)
    requires HasRoom(img, raw, dir) && off <= img.relocSize
    ensures Orderly(img, raw, dir, off) <==> SumsFit(img, raw, dir, off)
    decreases img.relocSize - off
  {
    if off + 8 <= img.relocSize {
      if off + SizeOf(raw, dir + off) >= U32 {
        WrapsBack(img, raw, dir, off);
      } else {
        GoesForward(img, raw, dir, off);
        if BlockAt(img, raw, dir, off) {
          OrderlyExactly(img, raw, dir, off + SizeOf(raw, dir + off));
        }
      }
    }
  }

  /** A sum that wraps passes the test, and the next offset is an earlier one. */
  lemma WrapsBack(img: Layout, raw: seq<byte>, dir: nat, off: nat)
    requires HasRoom(img, raw, dir) && off + 8 <= img.relocSize && off + SizeOf(raw, dir + off) >= U32
    ensures var p := NextPass(img, raw, dir, off); p.Goes? && p.off < off && !p.inside
  {
    SizeFits(raw, dir + off);
    WrappedSum(off + SizeOf(raw, dir + off));
  }

  /** The images of the rebasing laws are of this kind. */
  lemma {:induction false} PagesFitSums(img: Layout, raw: seq<byte>, dir: nat, off: nat)
    requires HasRoom(img, raw, dir) && off <= img.relocSize && PagesFit(img, raw, dir, off)
    ensures SumsFit(img, raw, dir, off)
    decreases img.relocSize - off
  {
    if off + 8 <= img.relocSize && BlockAt(img, raw, dir, off) {
      PagesFitSums(img, raw, dir, off + SizeOf(raw, dir + off));
    }
  }

  // ---- When the walk ends ----

  /** The walk after n passes, as long as the directory stays as it is. */
  function After(img: Layout, raw: seq<byte>, dir: nat, n: nat): (p: Pass)
    requires HasRoom(img, raw, dir)
    ensures p.Goes? ==> p.off <= img.relocSize
  {
    if n == 0 then Goes(0, true)
    else
      match After(img, raw, dir, n - 1)
      case Ends => Ends
      case Goes(off, _) => NextPass(img, raw, dir, off)
  }

  lemma {:induction false} GoesBefore(img: Layout, raw: seq<byte>, dir: nat, n: nat, m: nat)
    requires HasRoom(img, raw, dir) && n <= m && After(img, raw, dir, m).Goes?
    ensures After(img, raw, dir, n).Goes?
    decreases m
  {
    if n < m {
      GoesBefore(img, raw, dir, n, m - 1);
    }
  }

  /** An orderly walk ends, after at most one pass for every eight bytes and one more. */
  lemma OrderlyEnds(img: Layout, raw: seq<byte>, dir: nat)
    requires HasRoom(img, raw, dir) && SumsFit(img, raw, dir, 0)
    ensures After(img, raw, dir, img.relocSize / 8 + 1).Ends?
  {
    if After(img, raw, dir, img.relocSize / 8 + 1).Goes? {
      Advances(img, raw, dir, img.relocSize / 8 + 1);
    }
  }

  lemma {:induction false} Advances(img: Layout, raw: seq<byte>, dir: nat, n: nat)
    requires HasRoom(img, raw, dir) && SumsFit(img, raw, dir, 0) && After(img, raw, dir, n).Goes?
    ensures After(img, raw, dir, n).off >= 8 * n && SumsFit(img, raw, dir, After(img, raw, dir, n).off)
  {
    if n > 0 {
      Advances(img, raw, dir, n - 1);
      var off := After(img, raw, dir, n - 1).off;
      if off + 8 <= img.relocSize {
        GoesForward(img, raw, dir, off);
      }
    }
  }

  /** Two passes at one offset go on alike. */
  lemma {:induction false} SameFromHere(img: Layout, raw: seq<byte>, dir: nat, i: nat, j: nat, m: nat)
    requires HasRoom(img, raw, dir) && After(img, raw, dir, i).Goes? && After(img, raw, dir, j).Goes?
    requires After(img, raw, dir, i).off == After(img, raw, dir, j).off
    ensures After(img, raw, dir, i + m).Goes? <==> After(img, raw, dir, j + m).Goes?
    ensures After(img, raw, dir, i + m).Goes? ==> After(img, raw, dir, i + m).off == After(img, raw, dir, j + m).off
  {
    if m > 0 {
      SameFromHere(img, raw, dir, i, j, m - 1);
    }
  }

  /** A walk that comes back to an offset never ends. */
  lemma {:induction false} NeverEnds(img: Layout, raw: seq<byte>, dir: nat, i: nat, j: nat, n: nat)
    requires HasRoom(img, raw, dir) && i < j && After(img, raw, dir, j).Goes?
    requires After(img, raw, dir, i).Goes? && After(img, raw, dir, i).off == After(img, raw, dir, j).off
    ensures After(img, raw, dir, n).Goes?
    decreases n
  {
    if n <= j {
      GoesBefore(img, raw, dir, n, j);
    } else {
      NeverEnds(img, raw, dir, i, j, i + (n - j));
      SameFromHere(img, raw, dir, i, j, n - j);
    }
  }

  /** Two of more than m numbers below m are equal. */
  lemma {:induction false} Pigeonhole(s: seq<nat>, m: nat) returns (i: nat, j: nat)
    requires 0 < m < |s| && forall k | 0 <= k < |s| :: s[k] < m
    ensures i < j < |s| && s[i] == s[j]
    decreases m
  {
    if m == 1 {
      i, j := 0, 1;
    } else if k :| 0 <= k < |s| && s[k] == m - 1 {
      if l :| 0 <= l < |s| && l != k && s[l] == m - 1 {
        i, j := if k < l then k else l, if k < l then l else k;
      } else {
        var t := s[..k] + s[k + 1..];
        i, j := Pigeonhole(t, m - 1);
        i, j := if i < k then i else i + 1, if j < k then j else j + 1;
      }
    } else {
      i, j := Pigeonhole(s, m - 1);
    }
  }

  /** Whether the walk ends at all shows within as many passes as there are offsets. */
  lemma EndsExactly(img: Layout, raw: seq<byte>, dir: nat)
    requires HasRoom(img, raw, dir)
    ensures (exists n: nat :: After(img, raw, dir, n).Ends?) <==> After(img, raw, dir, img.relocSize + 1).Ends?
  {
    var last := img.relocSize + 1;
    if After(img, raw, dir, last).Goes? {
      forall n | 0 <= n <= last
        ensures After(img, raw, dir, n).Goes?
      {
        GoesBefore(img, raw, dir, n, last);
      }
      var offs := seq(last + 1, n requires 0 <= n <= last => After(img, raw, dir, n).off);
      var i, j := Pigeonhole(offs, last);
      forall n: nat
        ensures After(img, raw, dir, n).Goes?
      {
        NeverEnds(img, raw, dir, i, j, n);
      }
    }
  }

  // ---- An example ----

  const LOOPING: seq<byte> := [0, 0, 0, 0, 8, 0, 0, 0, 0, 0, 0, 0, 0xF8, 0xFF, 0xFF, 0xFF]

  /** It happens: the second block's size takes the walk back to the first. */
  lemma AWalkNeverEnds(img: Layout, n: nat)
    requires img.relocSize == 16
    ensures HasRoom(img, LOOPING, 0) && !SumsFit(img, LOOPING, 0, 0) && After(img, LOOPING, 0, n).Goes?
  {
    LoopingPasses(img);
    ComesBack(img);
    NeverEnds(img, LOOPING, 0, 0, 2, n);
  }

  lemma LoopingPasses(img: Layout)
    requires img.relocSize == 16
    ensures NextPass(img, LOOPING, 0, 0) == Goes(8, true) && NextPass(img, LOOPING, 0, 8) == Goes(0, false)
    ensures !SumsFit(img, LOOPING, 0, 8) && BlockAt(img, LOOPING, 0, 0) && SizeOf(LOOPING, 0) == 8
  {
  }

  lemma ComesBack(img: Layout)
    requires img.relocSize == 16
    ensures After(img, LOOPING, 0, 0).off == 0 && After(img, LOOPING, 0, 2) == Goes(0, false)
  {
    LoopingPasses(img);
    assert After(img, LOOPING, 0, 1) == Goes(8, true);
  }
}

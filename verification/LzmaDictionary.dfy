/** The circular dictionary: it mirrors the end of an unbounded history, and the
    copies made in it are the copies of the history. */
module LzmaDictionary {
  import opened Words
  import opened LzmaStream

  /** Where the byte `dist` back from the write position is. */
  function BackIndex(dicPos: int, dist: int, size: int): int {
    dicPos - dist + (if dicPos < dist then size else 0)
  }

  ghost function BackByte(dic: seq<byte>, dicPos: nat, dist: nat): byte
    requires dicPos <= |dic| && 1 <= dist <= |dic|
  {
    dic[BackIndex(dicPos, dist, |dic|)]
  }

  ghost predicate Mirrors(dic: seq<byte>, dicPos: nat, out: seq<byte>) {
    && dicPos <= |dic|
    && forall k {:trigger BackByte(dic, dicPos, k)} | 1 <= k <= |out| && k <= |dic| :: BackByte(dic, dicPos, k) == out[|out| - k]
  }

  lemma WriteMirrors(dic: seq<byte>, dicPos: nat, out: seq<byte>, b: byte)
    requires Mirrors(dic, dicPos, out) && dicPos < |dic|
    ensures Mirrors(dic[dicPos := b], dicPos + 1, out + [b])
  {
    var dic', out', next := dic[dicPos := b], out + [b], dicPos + 1;
    forall k | 1 <= k <= |out'| && k <= |dic'|
      ensures BackByte(dic', next, k) == out'[|out'| - k]
    {
      if k > 1 {
        assert BackByte(dic, dicPos, k - 1) == out[|out| - (k - 1)];
      }
    }
  }

  /** A full buffer continues at its start. */
  lemma WrapMirrors(dic: seq<byte>, out: seq<byte>)
    requires Mirrors(dic, |dic|, out)
    ensures Mirrors(dic, 0, out)
  {
    forall k | 1 <= k <= |out| && k <= |dic|
      ensures BackByte(dic, 0, k) == out[|out| - k]
    {
      assert BackByte(dic, |dic|, k) == out[|out| - k];
    }
  }

  method PutByte(dic: array<byte>, dicPos: nat, b: byte, ghost out: seq<byte>)
    requires Mirrors(dic[..], dicPos, out) && dicPos < dic.Length
    modifies dic
    ensures Mirrors(dic[..], dicPos + 1, out + [b])
    ensures dic[..] == old(dic[..])[dicPos := b]
  {
    dic[dicPos] := b;
    WriteMirrors(old(dic[..]), dicPos, out, b);
    assert dic[..] == old(dic[..])[dicPos := b];
  }

  /** One byte from `dist` back to the write position. */
  method CopyByte(dic: array<byte>, dicPos: nat, pos: int, ghost dist: int, ghost out: seq<byte>, ghost n: nat)
    requires 1 <= dist <= |out| && dist <= dic.Length
    requires Mirrors(dic[..], dicPos, Copy(out, dist, n)) && dicPos < dic.Length
    requires pos == BackIndex(dicPos, dist, dic.Length)
    modifies dic
    ensures Mirrors(dic[..], dicPos + 1, Copy(out, dist, n + 1))
  {
    ghost var o := Copy(out, dist, n);
    assert BackByte(dic[..], dicPos, dist) == o[|o| - dist];
    PutByte(dic, dicPos, dic[pos], o);
  }

  /** The match copy: straight through the buffer when the source does not wrap,
      byte by byte around its end when it does. */
  method CopyMatch(dic: array<byte>, dicPos: nat, rep0: int, curLen: nat, ghost out: seq<byte>)
    returns (dicPos': nat)
    requires Mirrors(dic[..], dicPos, out) && dicPos + curLen <= dic.Length && curLen > 0
    requires 1 <= rep0 <= |out| && rep0 <= dic.Length
    modifies dic
    ensures dicPos' == dicPos + curLen && Mirrors(dic[..], dicPos', Copy(out, rep0, curLen))
  {
    var pos := dicPos - rep0 + (if dicPos < rep0 then dic.Length else 0);
    if curLen <= dic.Length - pos {
      dicPos' := CopyStraight(dic, dicPos, pos, rep0, curLen, out);
    } else {
      dicPos' := CopyAround(dic, dicPos, pos, rep0, curLen, out);
    }
  }

  method CopyStraight(dic: array<byte>, dicPos: nat, pos: int, ghost rep0: int, curLen: nat, ghost out: seq<byte>)
    returns (dest: nat)
    requires Mirrors(dic[..], dicPos, out) && dicPos + curLen <= dic.Length && curLen > 0
    requires 1 <= rep0 <= |out| && rep0 <= dic.Length && pos == BackIndex(dicPos, rep0, dic.Length)
    requires pos + curLen <= dic.Length
    modifies dic
    ensures dest == dicPos + curLen && Mirrors(dic[..], dest, Copy(out, rep0, curLen))
  {
    dest := dicPos;
    var src := pos - dicPos;
    var lim := dest + curLen;
    while dest != lim
      invariant dicPos <= dest <= lim
      invariant Mirrors(dic[..], dest, Copy(out, rep0, dest - dicPos))
      decreases lim - dest
    {
      CopyByte(dic, dest, dest + src, rep0, out, dest - dicPos);
      dest := dest + 1;
    }
  }

  method CopyAround(dic: array<byte>, dicPos: nat, start: int, ghost rep0: int, curLen: nat, ghost out: seq<byte>)
    returns (dest: nat)
    requires Mirrors(dic[..], dicPos, out) && dicPos + curLen <= dic.Length
    requires 1 <= rep0 <= |out| && rep0 <= dic.Length && start == BackIndex(dicPos, rep0, dic.Length)
    modifies dic
    ensures dest == dicPos + curLen && Mirrors(dic[..], dest, Copy(out, rep0, curLen))
  {
    dest := dicPos;
    var pos, rest := start, curLen;
    while rest != 0
      invariant dest == dicPos + (curLen - rest)
      invariant rest != 0 ==> pos == BackIndex(dest, rep0, dic.Length)
      invariant Mirrors(dic[..], dest, Copy(out, rep0, dest - dicPos))
    {
      CopyByte(dic, dest, pos, rep0, out, dest - dicPos);
      dest := dest + 1;
      pos := pos + 1;
      if pos == dic.Length {
        pos := 0;
      }
      rest := rest - 1;
    }
  }

  /** The rest of a match that an earlier call could not finish. */
  method CopyRemainder(dic: array<byte>, dicPos: nat, rep0: int, len: nat, ghost out: seq<byte>)
    returns (dest: nat)
    requires Mirrors(dic[..], dicPos, out) && dicPos + len <= dic.Length
    requires 1 <= rep0 <= |out| && rep0 <= dic.Length
    modifies dic
    ensures dest == dicPos + len && Mirrors(dic[..], dest, Copy(out, rep0, len))
  {
    dest := dicPos;
    var rest := len;
    while rest != 0
      invariant dest == dicPos + (len - rest)
      invariant Mirrors(dic[..], dest, Copy(out, rep0, dest - dicPos))
    {
      rest := rest - 1;
      CopyByte(dic, dest, dest - rep0 + (if dest < rep0 then dic.Length else 0), rep0, out, dest - dicPos);
      dest := dest + 1;
    }
  }

  /** What a buffer holds between two write positions is what was produced between
      them. */
  lemma ProducedBytes(dic: seq<byte>, dicPos: nat, out: seq<byte>, n: nat)
    requires Mirrors(dic, dicPos, out) && n <= dicPos && n <= |out|
    ensures dic[dicPos - n..dicPos] == out[|out| - n..]
  {
    var a, b := dic[dicPos - n..dicPos], out[|out| - n..];
    forall i | 0 <= i < |a|
      ensures a[i] == b[i]
    {
      assert BackByte(dic, dicPos, n - i) == out[|out| - (n - i)];
    }
  }

  // ---- Sizing ----

  function RoundMask(dictSize: nat): nat {
    if dictSize >= 0x4000_0000 then 0x3F_FFFF
    else if dictSize >= 0x40_0000 then 0xF_FFFF
    else 0xFFF
  }

  /** The low bits of x under a rounding mask. */
  function LowBits(x: nat, mask: nat): (r: nat)
    requires mask == 0x3F_FFFF || mask == 0xF_FFFF || mask == 0xFFF
    ensures r <= x && r <= mask
    ensures (x - r) % (mask + 1) == 0
  {
    if mask == 0x3F_FFFF then x % 0x40_0000 else if mask == 0xF_FFFF then x % 0x10_0000 else x % 0x1000
  }

  /** The buffer for a dictionary: rounded up to a multiple of a power of two,
      unless that overflows the machine's size type. */
  function DicBufSize(dictSize: nat, wordSize: nat): (size: nat)
    requires dictSize < U32 <= wordSize
    ensures dictSize <= size < wordSize
    ensures size == dictSize || (size % (RoundMask(dictSize) + 1) == 0 && size <= dictSize + RoundMask(dictSize))
  {
    var mask := RoundMask(dictSize);
    var sum := if dictSize + mask < wordSize then dictSize + mask else dictSize + mask - wordSize;
    var size := sum - LowBits(sum, mask);
    if size < dictSize then dictSize else size
  }
}

/** The adaptive binary range decoder: normalisation, modelled bits and direct
    bits, on 32-bit fields and the input that has not been read yet. */
module LzmaRangeCoder {
  import opened Words
  import opened LzmaLayout

  /** A probability of a zero bit, in units of 1/2048. */
  type Prob = p: int | 31 <= p <= 2017 witness 1024

  const INITIAL_PROB: Prob := 1024

  datatype Rc = Rc(range: int, code: int, inp: seq<byte>) {
    /** What holds between two bits. */
    predicate Valid() {
      0x1_0000 <= range < U32 && 0 <= code < U32
    }

    predicate Normalized() {
      Valid() && TOP_VALUE <= range
    }

    function Extend(more: seq<byte>): Rc {
      Rc(range, code, inp + more)
    }
  }

  /** One shift of the range coder, when it is due; it needs an input byte. */
  datatype Norm = NoInput | Norm(rc: Rc)

  function Normalize(rc: Rc): (n: Norm)
    requires rc.Valid()
    ensures n.Norm? ==> n.rc.Normalized() && |rc.inp| - 1 <= |n.rc.inp| <= |rc.inp|
  {
    if rc.range >= TOP_VALUE then Norm(rc)
    else if |rc.inp| == 0 then NoInput
    else Norm(Rc(rc.range * 256, (rc.code * 256) % U32 + rc.inp[0], rc.inp[1..]))
  }

  function Bound(range: int, p: Prob): int {
    (range / BIT_MODEL_TOTAL) * p
  }

  /** Both parts of the range stay usable: a factor of at most 67 is lost, so one
      shift always restores a normalised range. */
  lemma BoundSplits(range: int, p: Prob)
    requires TOP_VALUE <= range < U32
    ensures 0x1_0000 <= Bound(range, p) < range
    ensures 0x1_0000 <= range - Bound(range, p)
    ensures Bound(range, p) * 67 >= range
    ensures (range - Bound(range, p)) * 67 >= range
  {
    var q := range / BIT_MODEL_TOTAL;
    assert q >= 8192;
    assert q * p >= q * 31 by { if p > 31 { MulOrder(31, p, q); } }
    assert q * p <= q * 2017 by { if p < 2017 { MulOrder(p, 2017, q); } }
  }

  /** A bit decoded with a probability: code against the split point. */
  function ModelledBit(rc: Rc, p: Prob): (r: (bool, Rc))
    requires rc.Normalized()
    ensures r.1.Valid() && r.1.inp == rc.inp && r.1.range * 67 >= rc.range
  {
    BoundSplits(rc.range, p);
    var bound := Bound(rc.range, p);
    if rc.code < bound then (false, Rc(bound, rc.code, rc.inp))
    else (true, Rc(rc.range - bound, rc.code - bound, rc.inp))
  }

  /** A bit decoded without a model: the sign of code - range / 2 in 32 bits. */
  function DirectBit(rc: Rc): (r: (bool, Rc))
    requires rc.Normalized()
    ensures r.1.Valid() && r.1.inp == rc.inp && r.1.range * 2054 >= rc.range * 1026
  {
    var half := rc.range / 2;
    var below := (rc.code - half) % U32;
    if below >= 0x8000_0000 then (false, Rc(half, rc.code, rc.inp))
    else (true, Rc(half, below, rc.inp))
  }

  /** The probability moves toward the decoded bit and stays in [31, 2017]. */
  function Adapt(p: Prob, bit: bool): Prob {
    if bit then p - p / MOVE_DIVISOR else p + (BIT_MODEL_TOTAL - p) / MOVE_DIVISOR
  }
}

/** Decoding a whole stream in one call, into a buffer that is also the dictionary:
    however small it is, it never wraps. */
module LzmaOneCall {
  import opened Words
  import opened LzmaLayout
  import opened LzmaStream
  import opened LzmaCalls
  import opened LzmaDecoder
  import opened LzmaProps
  import opened LzmaToBuf

  datatype Result = Ok | InputEof | DataError | PropsUnsupported

  /** The reference machine's one call, from a decoder that has seen nothing. */
  ghost function Whole(props: Props, src: seq<byte>, size: nat, mode: Mode): CallResult
    requires props.Valid()
  {
    Call(Header(props, []), src, size, mode)
  }

  /** LzmaDecode. */
  method Decode(dest: array<byte>, src: seq<byte>, propData: seq<byte>, mode: Mode)
    returns (res: Result, destLen: nat, srcLen: nat, status: Status)
    modifies dest
    ensures destLen <= dest.Length && srcLen <= |src|
    ensures |src| < RC_INIT_SIZE <==> res == InputEof && srcLen == destLen == 0 && status == NotSpecified
    ensures |src| >= RC_INIT_SIZE ==> (res == PropsUnsupported <==> DecodeProps(propData).Unsupported?)
    ensures |src| >= RC_INIT_SIZE && DecodeProps(propData).Decoded? ==>
              match Whole(DecodeProps(propData).props, src, dest.Length, mode)
              case Failed(st, out) => res == DataError && status == st && dest[..destLen] == out
              case Called(dec, n, st) =>
                && res == (if st == NeedsMoreInput then InputEof else Ok)
                && dest[..destLen] == Output(dec) && srcLen == n && status == st
  {
    destLen, srcLen, status := 0, 0, NotSpecified;
    if |src| < RC_INIT_SIZE {
      return InputEof, destLen, srcLen, status;
    }
    var props := DecodeProps(propData);
    if props.Unsupported? {
      return PropsUnsupported, destLen, srcLen, status;
    }
    var sres; ghost var whole;
    sres, destLen, srcLen, status, whole := DecodeOnce(props.props, dest, src, mode);
    CallIsCall(Header(props.props, []), src, dest.Length, mode, whole);
    res := if sres != SzOk then DataError else if status == NeedsMoreInput then InputEof else Ok;
  }

  /** The one call of a new decoder; `whole` is the reference's. */
  method DecodeOnce(props: Props, dest: array<byte>, src: seq<byte>, mode: Mode)
    returns (sres: SRes, destLen: nat, srcLen: nat, status: Status, ghost whole: CallResult)
    requires props.Valid()
    modifies dest
    ensures destLen <= dest.Length && srcLen <= |src|
    ensures CallIs(Header(props, []), src, dest.Length, mode, whole)
    ensures whole.Failed? ==> sres == SzErrorData && whole == Failed(status, dest[..destLen])
    ensures whole.Called? ==> sres == SzOk && whole == Called(whole.dec, srcLen, status) && dest[..destLen] == Output(whole.dec)
  {
    var p := new LzmaDec.AllocateProbs(props, dest);
    p.Init();
    whole := TheCall(p.Abstract(), src, dest.Length, mode);
    sres, srcLen, status := p.DecodeToDic(dest.Length, src, mode, dest.Length, whole);
    p.HowItEnds(whole, dest.Length, dest.Length, sres, srcLen, status);
    destLen := p.dicPos;
    if whole.Called? {
      MirrorsOutput(p);
    }
    OutputSince(p.dic[..], p.dicPos, p.out, [], p.dicPos);
  }
}

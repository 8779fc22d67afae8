/** The five property bytes in front of an LZMA stream. */
module LzmaProps {
  import opened Words
  import opened LzmaLayout

  datatype PropsResult = Unsupported | Decoded(props: Props)

  const PROPS_SIZE := 5

  function LittleEndian(a: byte, b: byte, c: byte, d: byte): (w: nat)
    ensures w < U32
  {
    a + 0x100 * b + 0x1_0000 * c + 0x100_0000 * d
  }

  /** LzmaProps_Decode: one byte packs lc, pb and lp; the dictionary size follows and
      is raised to the minimum. */
  function DecodeProps(data: seq<byte>): (r: PropsResult)
    ensures r.Decoded? ==> r.props.Valid()
  {
    if |data| < PROPS_SIZE then Unsupported
    else
      var dicSize := LittleEndian(data[1], data[2], data[3], data[4]);
      var d := data[0];
      if d >= 9 * 5 * 5 then Unsupported
      else Decoded(Props(d % 9, (d / 9) % 5, (d / 9) / 5, if dicSize < DIC_MIN then DIC_MIN else dicSize))
  }

  /** The property byte as an encoder packs it. */
  function PackProps(props: Props): nat {
    (props.pb * 5 + props.lp) * 9 + props.lc
  }

  /** Every valid triple has exactly one property byte, and decoding it gives the
      triple back, with the dictionary size of the other four bytes or the minimum. */
  lemma PropsRoundTrip(props: Props, data: seq<byte>)
    requires props.Valid() && |data| >= PROPS_SIZE
    ensures var size := LittleEndian(data[1], data[2], data[3], data[4]);
            DecodeProps(data) == Decoded(props)
            <==> data[0] == PackProps(props) && (props.dicSize == size || (size < 4096 && props.dicSize == 4096))
  {
    var d := data[0];
    if d == PackProps(props) {
      DivModUnique(d, 9, props.pb * 5 + props.lp, props.lc);
      DivModUnique(d / 9, 5, props.pb, props.lp);
    }
  }

  /** The five bytes as an encoder writes them: the dictionary size with its lowest byte
      first. */
  function PropBytes(props: Props): seq<byte>
    requires props.Valid()
  {
    var size := props.dicSize;
    [PackProps(props) % 256, size % 256, size / 256 % 256, size / 256 / 256 % 256, size / 256 / 256 / 256 % 256]
  }

  /** They decode to the properties they were written for. */
  lemma WrittenPropsDecode(props: Props, rest: seq<byte>)
    requires props.Valid()
    ensures DecodeProps(PropBytes(props) + rest) == Decoded(props)
  {
    var data := PropBytes(props) + rest;
    assert data[0] == PackProps(props);
    SizeFromBytes(props.dicSize);
    PropsRoundTrip(props, data);
  }

  lemma SizeFromBytes(size: nat)
    requires size < U32
    ensures LittleEndian(size % 256, size / 256 % 256, size / 256 / 256 % 256, size / 256 / 256 / 256 % 256) == size
  {
    var a := size / 256;
    var b := a / 256;
    Quotient(size, 256);
    Quotient(a, 256);
    Quotient(b, 256);
    assert b / 256 < 256;
  }

  /** Decoding fails exactly on too few bytes or a property byte out of range. */
  lemma WhenUnsupported(data: seq<byte>)
    ensures DecodeProps(data).Unsupported? <==> |data| < PROPS_SIZE || data[0] >= 225
    ensures DecodeProps(data).Decoded? ==> PackProps(DecodeProps(data).props) == data[0]
  {
  }
}

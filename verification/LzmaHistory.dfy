/** What a sequence of LZMA symbols means, without a decoder: the text it stands for, the
    state and the distances that its history leads to, and the bits that spell a symbol,
    each under the name of the probability it is coded with. */
module LzmaHistory {
  import opened Words
  import opened LzmaLayout
  import opened LzmaSymbol

  // ---- State and distances ----

  /** How many literals the history ends with. */
  function Literals(past: seq<Symbol>): (n: nat)
    ensures n <= |past|
  {
    if past == [] || !past[|past| - 1].Literal? then 0 else 1 + Literals(past[..|past| - 1])
  }

  /** The state after `n` literals that follow `last`, which came after a literal (or
      first) if `first`: 7, 8 and 9 are match, repeat and short repeat after a literal, 10
      and 11 match and any repeat after another match; each literal then leads one row
      down, and the third to 0. */
  function StateTable(last: Symbol, first: bool, n: nat): nat
    requires !last.Literal?
  {
    if n == 0 then
      if last.Match? then (if first then 7 else 10)
      else if !first then 11
      else if last.RepMatch? then 8 else 9
    else if n == 1 then
      if last.Match? then 4 else if last.RepMatch? || !first then 5 else 6
    else if n == 2 then
      if last.Match? then 1 else if last.RepMatch? || !first then 2 else 3
    else 0
  }

  function StateOf(past: seq<Symbol>): nat {
    var n := Literals(past);
    if n == |past| then 0
    else
      var before := past[..|past| - n - 1];
      LastBeforeLiterals(past);
      StateTable(past[|past| - n - 1], before == [] || before[|before| - 1].Literal?, n)
  }

  lemma {:induction false} LastBeforeLiterals(past: seq<Symbol>)
    ensures var n := Literals(past); n < |past| ==> !past[|past| - n - 1].Literal?
  {
    if past != [] && past[|past| - 1].Literal? {
      LastBeforeLiterals(past[..|past| - 1]);
    }
  }

  /** The distance of a symbol comes to the front. */
  function Used(r: seq<int>, symbol: Symbol): (r': seq<int>)
    requires |r| == 4
    ensures |r'| == 4
  {
    match symbol
    case Match(_, distance) => [distance + 1] + r[..3]
    case RepMatch(i, _) => if i < 4 then [r[i]] + r[..i] + r[i + 1..] else r
    case _ => r
  }

  /** The four distances used last, the latest first; at the beginning all are 1. */
  function RecentOf(past: seq<Symbol>): (r: seq<int>)
    ensures |r| == 4
  {
    if past == [] then [1, 1, 1, 1] else Used(RecentOf(past[..|past| - 1]), past[|past| - 1])
  }

  // ---- The text ----

  /** n more bytes, each the one `distance` before it. */
  function Repeated(text: seq<byte>, distance: int, n: nat): (r: seq<byte>)
    requires 1 <= distance <= |text|
    ensures |r| == |text| + n
    decreases n
  {
    if n == 0 then text else Repeated(text + [text[|text| - distance]], distance, n - 1)
  }

  /** The symbol can follow this history: its distance lies in the text so far and in the
      dictionary. */
  predicate CanFollow(past: seq<Symbol>, text: seq<byte>, dicSize: nat, symbol: Symbol) {
    match symbol
    case Literal(_) => true
    case ShortRep => |text| > 0
    case RepMatch(i, len) => i < 4 && len <= 271 && |text| > 0
    case Match(len, distance) => len <= 271 && distance < |text| && distance < dicSize
  }

  function Extended(past: seq<Symbol>, text: seq<byte>, symbol: Symbol): seq<byte> {
    match symbol
    case Literal(b) => text + [b]
    case ShortRep => Again(text, RecentOf(past)[0], 1)
    case RepMatch(i, len) => if i < 4 then Again(text, RecentOf(past)[i], len + 2) else text
    case Match(len, distance) => Again(text, distance + 1, len + 2)
  }

  function Again(text: seq<byte>, distance: int, n: nat): seq<byte> {
    if 1 <= distance <= |text| then Repeated(text, distance, n) else text
  }

  /** The text that a sequence of symbols stands for. */
  function TextOf(past: seq<Symbol>): seq<byte> {
    if past == [] then [] else Extended(past[..|past| - 1], TextOf(past[..|past| - 1]), past[|past| - 1])
  }

  /** Every symbol can follow the ones before it. */
  predicate Proper(past: seq<Symbol>, dicSize: nat) {
    past != [] ==>
      var before := past[..|past| - 1];
      Proper(before, dicSize) && CanFollow(before, TextOf(before), dicSize, past[|past| - 1])
  }

  // ---- Names of probabilities ----

  datatype Tree = LowTree(rep: bool, posState: nat) | MidTree(rep: bool, posState: nat) | HighTree(rep: bool) | SlotTree(lenState: nat)

  datatype Name =
    | IsMatchAt(state: nat, posState: nat)
    | IsRepAt(state: nat)
    | IsRepG0At(state: nat)
    | IsRepG1At(state: nat)
    | IsRepG2At(state: nat)
    | IsRep0LongAt(state: nat, posState: nat)
    | LiteralAt(coder: nat, table: nat, node: nat)
    | ChoiceAt(rep: bool)
    | Choice2At(rep: bool)
    | TreeAt(tree: Tree, node: nat)
    | SpecialAt(slot: nat, mark: nat)
    | AlignAt(mark: nat)

  /** One bit: under a named probability, or plain. */
  datatype Event = Modelled(name: Name, bit: bool) | Plain(bit: bool)

  // ---- The bits of a symbol ----

  /** A number without its lowest k bits, and these bits alone. */
  function Above(v: nat, k: nat): nat {
    if k == 0 then v else Above(v / 2, k - 1)
  }

  function Below(v: nat, k: nat): nat {
    if k == 0 then 0 else v % 2 + 2 * Below(v / 2, k - 1)
  }

  predicate BitAt(v: nat, k: nat) {
    Above(v, k) % 2 == 1
  }

  /** The low r bits of a value, highest first, down a tree. */
  function TreeEvents(tree: Tree, v: nat, r: nat, node: nat): seq<Event> {
    if r == 0 then []
    else [Modelled(TreeAt(tree, node), BitAt(v, r - 1))] + TreeEvents(tree, v, r - 1, 2 * node + Bit(BitAt(v, r - 1)))
  }

  /** The same for a literal. As long as its bits are those of the match byte, that
      byte's next bit selects the table. */
  function LiteralEvents(coder: nat, v: byte, r: nat, node: nat, same: bool, matchByte: byte): seq<Event> {
    if r == 0 then []
    else
      var bit, other := BitAt(v, r - 1), BitAt(matchByte, r - 1);
      [Modelled(LiteralAt(coder, if same then 1 + Bit(other) else 0, node), bit)]
      + LiteralEvents(coder, v, r - 1, 2 * node + Bit(bit), same && bit == other, matchByte)
  }

  function LenEvents(rep: bool, posState: nat, len: nat): seq<Event> {
    if len < 8 then [Modelled(ChoiceAt(rep), false)] + TreeEvents(LowTree(rep, posState), len, 3, 1)
    else if len < 16 then
      [Modelled(ChoiceAt(rep), true), Modelled(Choice2At(rep), false)] + TreeEvents(MidTree(rep, posState), len - 8, 3, 1)
    else [Modelled(ChoiceAt(rep), true), Modelled(Choice2At(rep), true)] + TreeEvents(HighTree(rep), len - 16, 8, 1)
  }

  /** Twice the number of the highest bit, and the bit below it. */
  function PosSlot(distance: nat): nat {
    if distance < 4 then distance else PosSlot(distance / 2) + 2
  }

  /** Bits k to n - 1, lowest first; a one above the bits already known marks the
      place. */
  function SpecialEvents(slot: nat, distance: nat, k: nat, n: nat): seq<Event>
    decreases n - k
  {
    if k >= n then []
    else [Modelled(SpecialAt(slot, Pow2(k) + Below(distance, k)), BitAt(distance, k))] + SpecialEvents(slot, distance, k + 1, n)
  }

  function AlignEvents(distance: nat, k: nat): seq<Event>
    decreases 4 - k
  {
    if k >= 4 then []
    else [Modelled(AlignAt(Pow2(k) + Below(distance, k)), BitAt(distance, k))] + AlignEvents(distance, k + 1)
  }

  /** Bits r - 1 to 4, highest first, without a model. */
  function PlainEvents(distance: nat, r: nat): seq<Event> {
    if r <= 4 then [] else [Plain(BitAt(distance, r - 1))] + PlainEvents(distance, r - 1)
  }

  /** What the slot does not say: the bits below the two highest. */
  function FooterEvents(slot: nat, distance: nat): seq<Event> {
    if slot < 4 then []
    else if slot < 14 then SpecialEvents(slot, distance, 0, slot / 2 - 1)
    else PlainEvents(distance, slot / 2 - 1) + AlignEvents(distance, 0)
  }

  function DistanceEvents(len: nat, distance: nat): seq<Event> {
    TreeEvents(SlotTree(if len < 3 then len else 3), PosSlot(distance), 6, 1) + FooterEvents(PosSlot(distance), distance)
  }

  /** What selects the probabilities of a symbol. */
  datatype Setting = Setting(state: nat, posState: nat, coder: nat, matchByte: byte)

  function SettingOf(props: Props, past: seq<Symbol>, text: seq<byte>): Setting
    requires props.lc <= 8
  {
    var prev := if text == [] then 0 else text[|text| - 1];
    var distance := RecentOf(past)[0];
    Setting(StateOf(past), |text| % Pow2(props.pb), (|text| % Pow2(props.lp)) * Pow2(props.lc) + Above(prev, 8 - props.lc),
            if 1 <= distance <= |text| then text[|text| - distance] else 0)
  }

  function SymbolEvents(s: Setting, symbol: Symbol): seq<Event> {
    match symbol
    case Literal(v) =>
      [Modelled(IsMatchAt(s.state, s.posState), false)] + LiteralEvents(s.coder, v, 8, 1, s.state >= 7, s.matchByte)
    case Match(len, distance) =>
      [Modelled(IsMatchAt(s.state, s.posState), true), Modelled(IsRepAt(s.state), false)]
      + LenEvents(false, s.posState, len) + DistanceEvents(len, distance)
    case ShortRep => RepEvents(s) + [Modelled(IsRepG0At(s.state), false), Modelled(IsRep0LongAt(s.state, s.posState), false)]
    case RepMatch(i, len) => RepEvents(s) + IndexEvents(s, i) + LenEvents(true, s.posState, len)
  }

  function RepEvents(s: Setting): seq<Event> {
    [Modelled(IsMatchAt(s.state, s.posState), true), Modelled(IsRepAt(s.state), true)]
  }

  function IndexEvents(s: Setting, i: nat): seq<Event> {
    if i == 0 then [Modelled(IsRepG0At(s.state), false), Modelled(IsRep0LongAt(s.state, s.posState), true)]
    else if i == 1 then [Modelled(IsRepG0At(s.state), true), Modelled(IsRepG1At(s.state), false)]
    else [Modelled(IsRepG0At(s.state), true), Modelled(IsRepG1At(s.state), true), Modelled(IsRepG2At(s.state), i == 3)]
  }
}

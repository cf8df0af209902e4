/** What the encoder writes: the representations of section 6 of RFC 7541, with strings raw or Huffman-coded. */
module EncoderSpec {
  import opened Common
  import opened Bits
  import opened HuffmanCode
  import opened IntSpec
  import opened Validate

  /** The octets of a bit string. */
  function ToOctets(b: bits): (s: seq<byte>)
    requires |b| % 8 == 0
    ensures 8 * |s| == |b|
    decreases |b|
  {
    if b == [] then [] else OctetOf(b[..8]) + ToOctets(b[8..])
  }

  function OctetOf(b: bits): (s: seq<byte>)
    requires |b| == 8
    ensures |s| == 1
  {
    Pow2Table();
    [Val(b)]
  }

  lemma {:induction false} OctetsOfBits(b: bits)
    requires |b| % 8 == 0
    ensures OfOctets(ToOctets(b)) == b
    decreases |b|
  {
    if b != [] {
      var h, t := b[..8], b[8..];
      OfVal(h);
      OctetsOfBits(t);
      assert ToOctets(b)[1..] == ToOctets(t);
      assert b == h + t;
    }
  }

  /** The number of padding bits after `n` bits. */
  function PadLen(n: nat): (p: nat)
    ensures p < 8 && (n + p) % 8 == 0
  {
    (8 - n % 8) % 8
  }

  /** The code bits of `s`, with their padding. */
  function Padded(c: Code, s: seq<byte>): (b: bits)
    requires WfCode(c)
    ensures |b| % 8 == 0
  {
    EncBits(c, s) + Ones(PadLen(|EncBits(c, s)|))
  }

  /** HPH_encode as a value. */
  function HufEnc(c: Code, s: seq<byte>): seq<byte>
    requires WfCode(c)
  {
    ToOctets(Padded(c, s))
  }

  /** Encoding gives a string that decodes to what was encoded, and HPH_size tells its length. */
  lemma HuffmanRoundTrip(c: Code, s: seq<byte>)
    requires WfCode(c)
    ensures Decoded(c, HufEnc(c, s)) == Some(s) && |HufEnc(c, s)| == (7 + |EncBits(c, s)|) / 8
  {
    hide EncBits; hide WfCode; hide Decoded;
    OctetsOfBits(Padded(c, s));
    DecodedExactly(c, HufEnc(c, s), s);
  }

  /** A string and how it is written. */
  datatype Str = Str(huf: bool, s: seq<byte>)

  function Body(c: Code, t: Str): seq<byte>
    requires WfCode(c)
  {
    if t.huf then HufEnc(c, t.s) else t.s
  }

  /** Section 5.2 of RFC 7541, with the length cut to 16 bits as the cast in hpack_encode_string does. */
  function StrWire(c: Code, t: Str): seq<byte>
    requires WfCode(c)
  {
    IntEnc(7, if t.huf then 0x80 else 0x00, |Body(c, t)| % 0x1_0000) + Body(c, t)
  }

  datatype Kind = Dyn | Plain | Nvr

  datatype Name = ByIndex(idx: u16) | ByName(n: Str)

  /** A representation of a field, or a change of the size of the table. */
  datatype Instr = Upd(lim: u16) | Idx(idx: u16) | Lit(kind: Kind, nam: Name, val: Str)

  function KindPrefix(k: Kind): prefix {
    if k == Dyn then 6 else 4
  }

  function KindPattern(k: Kind): byte {
    match k case Dyn => 0x40 case Plain => 0x00 case Nvr => 0x10
  }

  function Number(i: Instr): seq<byte> {
    Pow2Table();
    match i
    case Upd(lim) => IntEnc(5, 0x20, lim)
    case Idx(idx) => IntEnc(7, 0x80, idx)
    case Lit(k, n, _) => IntEnc(KindPrefix(k), KindPattern(k), if n.ByIndex? then n.idx else 0)
  }

  function Wire(c: Code, i: Instr): seq<byte>
    requires WfCode(c)
  {
    match i
    case Lit(_, n, v) => Number(i) + (if n.ByName? then StrWire(c, n.n) else []) + StrWire(c, v)
    case _ => Number(i)
  }

  function Wires(c: Code, l: seq<Instr>): seq<byte>
    requires WfCode(c)
  {
    if l == [] then [] else Wire(c, l[0]) + Wires(c, l[1..])
  }
}

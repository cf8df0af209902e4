/** What the machine of `DecoderSpec` does with the integers and the strings that the encoder writes. */
module WireScan {
  import opened Common
  import opened Bits
  import opened HuffmanCode
  import opened IntSpec
  import opened Validate
  import opened TableSpec
  import opened DecoderSpec
  import opened DecoderScan
  import opened EncoderSpec

  lemma {:induction false} ScanConts(h: Hpi, pfx: prefix, s: seq<byte>, rest: seq<byte>)
    requires Conts(h, s).Done?
    requires IsRun(s)
    ensures IntScan(true, h, pfx, s + rest) == Scan(Conts(h, s), rest)
    decreases |s|
  {
    assert (s + rest)[1..] == s[1..] + rest;
    var r := IntNext(h, s[0]);
    if |s| == 1 {
      assert s[1..] + rest == rest;
    } else {
      ScanConts(r.h, pfx, s[1..], rest);
    }
  }

  /** An encoded integer is read back whole, and nothing after it. */
  lemma IntWire(h: Hpi, pfx: prefix, pat: byte, v: u16, rest: seq<byte>)
    requires pat % Pow2(pfx) == 0 && pat + Mask(pfx) < 256
    ensures IntScan(false, h, pfx, IntEnc(pfx, pat, v) + rest) == Scan(Done(v), rest)
  {
    RoundTrip(pfx, pat, v);
    var s := IntEnc(pfx, pat, v);
    hide IntEnc; hide Conts; hide IsRun; hide Mask;
    assert (s + rest)[0] == s[0] && (s + rest)[1..] == s[1..] + rest;
    match IntFirst(pfx, s[0])
    case Done(w) => assert s[1..] + rest == rest;
    case More(g) => ScanConts(g, pfx, s[1..], rest);
  }

  /** There is room for `n` more octets of the field under way. */
  predicate Room(d: Dec, n: nat) {
    |d.done| + Used(d) + n <= d.cap
  }

  lemma PutRoom(d: Dec, s: seq<byte>)
    requires Room(d, |s|)
    ensures Put(d, s) == Run(d.(str := d.str + s))
  {
  }

  lemma HufOctet(env: Env, d: Dec, b: byte)
    requires InString(d.stp) && d.huf && d.left > 0 && Room(d, |Parse(env.code, d.pend + Of(b, 8)).out|)
    ensures var q := Parse(env.code, d.pend + Of(b, 8));
            Feed(env, d, b) == if q.eos then Stop(d, HUF) else Finish(d.(str := d.str + q.out, left := d.left - 1, pend := q.rest))
  {
    hide Parse; hide Finish; hide Of;
    PutRoom(d, Parse(env.code, d.pend + Of(b, 8)).out);
  }

  lemma OctetsCons(b: bits, s: seq<byte>)
    requires s != []
    ensures b + OfOctets(s) == b + Of(s[0], 8) + OfOctets(s[1..])
  {
  }

  lemma OctetsNil(b: bits)
    ensures b + OfOctets([]) == b
  {
  }

  /** The octets of a Huffman string, all at once. */
  lemma {:induction false} HufScan(env: Env, d: Dec, s: seq<byte>, rest: seq<byte>)
    requires WfCode(env.code) && InString(d.stp) && d.huf && 0 < |s| <= d.left
    requires Room(d, |Parse(env.code, d.pend + OfOctets(s)).out|)
    ensures var p := Parse(env.code, d.pend + OfOctets(s));
            FeedAll(env, Run(d), s + rest) ==
            FeedAll(env, if p.eos then Stop(d, HUF) else Finish(d.(str := d.str + p.out, left := d.left - |s|, pend := p.rest)), rest)
    decreases |s|
  {
    hide Parse; hide Finish; hide Of; hide WfCode; hide Feed; hide OfOctets;
    var b, t := s[0], s[1..];
    var a := d.pend + Of(b, 8);
    var q, p := Parse(env.code, a), Parse(env.code, d.pend + OfOctets(s));
    OctetsCons(d.pend, s);
    ParseAppend(env.code, a, OfOctets(t));
    HufOctet(env, d, b);
    assert (s + rest)[1..] == t + rest && (s + rest)[0] == b;
    FeedNothing(env);
    if t == [] {
      OctetsNil(a);
      assert t + rest == rest;
    } else if !q.eos {
      var d1 := d.(str := d.str + q.out, left := d.left - 1, pend := q.rest);
      var p1 := Parse(env.code, q.rest + OfOctets(t));
      FinishMore(d1);
      HufScan(env, d1, t, rest);
      assert d.str + (q.out + p1.out) == d1.str + p1.out;
    }
  }

  /** The end of a string, when there is room for its NUL. */
  lemma EndRoom(d: Dec)
    requires Room(d, 1) && InString(d.stp)
    ensures StringEnd(d) == StringDone(d.(left := 0, pend := []))
  {
    hide StringDone;
  }

  /**
   Huffman decoding is exact: whatever the octets, a string of `left` of them is decoded to what the code and the padding
   rule of section 5.2 of RFC 7541 say, or rejected when they say nothing.
   */
  lemma HuffmanString(env: Env, d: Dec, s: seq<byte>, rest: seq<byte>)
    requires WfCode(env.code) && InString(d.stp) && d.huf && d.left == |s| && d.pend == []
    requires Room(d, |Parse(env.code, OfOctets(s)).out| + 1)
    ensures var v := Decoded(env.code, s);
            FeedAll(env, Finish(d), s + rest) ==
            if v.Some? then FeedAll(env, StringDone(d.(str := d.str + v.value, left := 0, pend := [])), rest) else Stop(d, HUF)
  {
    hide WfCode; hide Parse; hide OfOctets; hide StringEnd; hide StringDone; hide Finish; hide Padding;
    FeedNothing(env);
    var p := Parse(env.code, OfOctets(s));
    assert [] + OfOctets(s) == OfOctets(s);
    FinishMore(d);
    var e := d.(str := d.str + p.out, left := 0, pend := p.rest);
    FinishMore(e);
    EndRoom(e);
    if s == [] {
      ParseNothing(env.code, s);
      assert s + rest == rest && d.str + [] == d.str;
    } else {
      HufScan(env, d, s, rest);
    }
  }

  lemma ParseNothing(c: Code, s: seq<byte>)
    requires WfCode(c) && s == []
    ensures Parse(c, OfOctets(s)) == Parsed([], [], false) && Padding([])
  {
  }

  lemma RawString(env: Env, d: Dec, s: seq<byte>, rest: seq<byte>)
    requires InString(d.stp) && !d.huf && d.left == |s| && d.pend == [] && Room(d, |s| + 1)
    ensures FeedAll(env, Finish(d), s + rest) == FeedAll(env, StringDone(d.(str := d.str + s, left := 0)), rest)
  {
    hide StringEnd; hide StringDone; hide Finish;
    RawIs(env, d, s, rest);
    PutRoom(d.(left := 0, pend := []), s);
    var e := d.(str := d.str + s, left := 0);
    FinishMore(e);
    EndRoom(e);
  }

  /** The string can be written: its length fits in 16 bits. */
  predicate WfStr(c: Code, t: Str)
    requires WfCode(c)
  {
    |Body(c, t)| < 0x1_0000
  }

  /** The decoder past the string `t`. */
  function PastString(d: Dec, t: Str): Dec {
    d.(stp := if d.stp == NamLen then NamStr else ValStr, huf := t.huf, str := t.s)
  }

  lemma StringBody(env: Env, d: Dec, t: Str, rest: seq<byte>)
    requires WfCode(env.code) && WfStr(env.code, t) && (d.stp == NamLen || d.stp == ValLen)
    requires d.str == [] && d.pend == [] && d.left == 0 && d.huf == t.huf && Room(d, |t.s| + 1)
    ensures FeedAll(env, Finish(Begun(d, |Body(env.code, t)|)), Body(env.code, t) + rest)
         == FeedAll(env, StringDone(PastString(d, t)), rest)
  {
    hide WfCode; hide StringDone; hide Finish; hide Parse; hide HufEnc; hide OfOctets;
    var e := Begun(d, |Body(env.code, t)|);
    assert [] + t.s == t.s;
    if t.huf {
      HuffmanRoundTrip(env.code, t.s);
      HuffmanString(env, e, HufEnc(env.code, t.s), rest);
    } else {
      RawString(env, e, t.s, rest);
    }
  }

  /** Every code takes room. */
  lemma BodyEmpty(c: Code, t: Str)
    requires WfCode(c)
    ensures |Body(c, t)| == 0 <==> t.s == []
  {
    if t.huf {
      HuffmanRoundTrip(c, t.s);
      hide HufEnc;
    }
  }

  /** The length of a string on the wire. */
  lemma LengthWire(env: Env, d: Dec, huf: bool, n: u16, rest: seq<byte>)
    requires (d.stp == NamLen || d.stp == ValLen) && !d.bsy && d.hpi == IDLE
    ensures FeedAll(env, Run(d), IntEnc(7, if huf then 0x80 else 0x00, n) + rest) == FeedAll(env, StringBegin(d.(huf := huf), n), rest)
  {
    var pat: byte := if huf then 0x80 else 0x00;
    var w := IntEnc(7, pat, n);
    Pow2Table();
    FirstOctet(7, pat, n);
    IntWire(d.hpi, 7, pat, n, rest);
    hide StringBegin; hide IntEnc; hide IntScan; hide FeedAll;
    assert (w + rest)[0] == w[0];
    LengthScan(env, d, w + rest);
  }

  /** A string on the wire, from its length to its NUL in the buffer. */
  lemma StringWire(env: Env, d: Dec, t: Str, rest: seq<byte>)
    requires WfCode(env.code) && WfStr(env.code, t) && (d.stp == NamLen || d.stp == ValLen)
    requires d.str == [] && d.pend == [] && d.left == 0 && !d.bsy && d.hpi == IDLE && Room(d, |t.s| + 1)
    requires d.stp == NamLen ==> t.s != []
    ensures FeedAll(env, Run(d), StrWire(env.code, t) + rest) == FeedAll(env, StringDone(PastString(d, t)), rest)
  {
    hide WfCode; hide StringDone; hide Finish; hide IntEnc; hide Body; hide StringBegin; hide StringEnd; hide FeedAll;
    var b := Body(env.code, t);
    var w := IntEnc(7, if t.huf then 0x80 else 0x00, |b|);
    assert StrWire(env.code, t) + rest == w + (b + rest);
    BodyEmpty(env.code, t);
    LengthWire(env, d, t.huf, |b|, b + rest);
    BeginIs(d.(huf := t.huf), |b|);
    StringBody(env, d.(huf := t.huf), t, rest);
  }

  lemma FirstOctet(pfx: prefix, pat: byte, v: u16)
    requires pat + Mask(pfx) < 256
    ensures var s := IntEnc(pfx, pat, v); s != [] && pat <= s[0] <= pat + Mask(pfx)
  {
  }

  /** The representations of section 6 of RFC 7541 are told apart by the first bits of their first octets. */
  lemma RepresentationBits(c: Code, i: Instr)
    requires WfCode(c)
    ensures var w := Wire(c, i);
            && w != []
            && match i
               case Idx(_) => 0x80 <= w[0]
               case Lit(Dyn, _, _) => 0x40 <= w[0] < 0x80
               case Upd(_) => 0x20 <= w[0] < 0x40
               case Lit(Nvr, _, _) => 0x10 <= w[0] < 0x20
               case Lit(Plain, _, _) => w[0] < 0x10
  {
    Pow2Table();
    match i {
      case Upd(v) => FirstOctet(5, 0x20, v);
      case Idx(v) => FirstOctet(7, 0x80, v);
      case Lit(k, n, _) => FirstOctet(KindPrefix(k), KindPattern(k), if n.ByIndex? then n.idx else 0);
    }
    hide StrWire; hide IntEnc; hide WfCode;
  }

  /** The H bit of section 5.2 of RFC 7541. */
  lemma HuffmanBit(c: Code, t: Str)
    requires WfCode(c)
    ensures var w := StrWire(c, t); w != [] && (0x80 <= w[0] <==> t.huf)
  {
    Pow2Table();
    FirstOctet(7, if t.huf then 0x80 else 0x00, |Body(c, t)| % 0x1_0000);
    hide IntEnc; hide WfCode; hide Body;
  }
}

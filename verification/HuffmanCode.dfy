/**
 The Huffman code of RFC 7541 (appendix B) as a list of codes, and the reference decoder that reads it bit by bit.
 The list is the one of inc/tbl/hpack_huffman.h: sorted by code, with lengths that never decrease, leaving out EOS.
 */
module HuffmanCode {
  import opened Common
  import opened Bits

  type pos = n: nat | n > 0 witness 1

  datatype Sym = Sym(cod: nat, len: pos, chr: byte)

  /** A code list, and for each octet the position of its code (the table printed by gen/hpack_huf_enc.c). */
  datatype Code = Code(syms: seq<Sym>, enc: seq<nat>)

  function CodeOf(s: Sym): (b: bits)
    ensures |b| == s.len
  {
    Of(s.cod, s.len)
  }

  /** The end-of-string code: 30 one bits. */
  function Eos(): (b: bits)
    ensures |b| == 30
  {
    Ones(30)
  }

  /** A prefix code that also spares EOS, and the inverse of its character column. */
  ghost predicate WfCode(c: Code) {
    && |c.syms| == 256
    && |c.enc| == 256
    && (forall i :: 0 <= i < 256 ==> 5 <= c.syms[i].len <= 30 && c.syms[i].cod < Pow2(c.syms[i].len))
    && (forall i :: 0 <= i < 256 ==> !(CodeOf(c.syms[i]) <= Eos()))
    && (forall i, j :: 0 <= i < 256 && 0 <= j < 256 && i != j ==> !(CodeOf(c.syms[i]) <= CodeOf(c.syms[j])))
    && (forall k: byte :: c.enc[k] < 256 && c.syms[c.enc[k]].chr == k)
    && (forall i :: 0 <= i < 256 ==> c.enc[c.syms[i].chr] == i)
  }

  function SymOf(c: Code, k: byte): Sym
    requires WfCode(c)
  {
    c.syms[c.enc[k]]
  }

  /** At most one code is a prefix of a bit string. */
  lemma PrefixFree(c: Code, i: nat, j: nat, b: bits)
    requires WfCode(c) && i < 256 && j < 256
    requires CodeOf(c.syms[i]) <= b && CodeOf(c.syms[j]) <= b
    ensures i == j
  {
    var x, y := CodeOf(c.syms[i]), CodeOf(c.syms[j]);
    assert x <= y || y <= x;
  }

  /** A code that is a prefix of `b` excludes EOS being one. */
  lemma CodeExcludesEos(c: Code, i: nat, b: bits)
    requires WfCode(c) && i < 256 && CodeOf(c.syms[i]) <= b
    ensures !(Eos() <= b)
  {
  }

  // ---- the reference decoder ----

  /** The first position whose code is a prefix of `b`, or 256. */
  function Find(syms: seq<Sym>, b: bits, i: nat := 0): (r: nat)
    requires i <= |syms|
    ensures i <= r <= |syms|
    ensures r < |syms| ==> CodeOf(syms[r]) <= b
    ensures forall k :: i <= k < r ==> !(CodeOf(syms[k]) <= b)
    decreases |syms| - i
  {
    if i == |syms| then i
    else if CodeOf(syms[i]) <= b then i
    else Find(syms, b, i + 1)
  }

  /** What reading a bit string gives: the symbols, then either the end-of-string code or the bits of no whole code. */
  datatype Parsed = Parsed(out: seq<byte>, rest: bits, eos: bool)

  function Parse(c: Code, b: bits): (p: Parsed)
    ensures |p.rest| <= |b|
    decreases |b|
  {
    var i := Find(c.syms, b);
    if i < |c.syms| then
      var p := Parse(c, b[c.syms[i].len..]);
      p.(out := [c.syms[i].chr] + p.out)
    else if Eos() <= b then Parsed([], [], true)
    else Parsed([], b, false)
  }

  function EncBits(c: Code, s: seq<byte>): bits
    requires WfCode(c)
  {
    if s == [] then [] else CodeOf(SymOf(c, s[0])) + EncBits(c, s[1..])
  }

  lemma ParseSym(c: Code, i: nat, b: bits)
    requires WfCode(c) && i < 256 && CodeOf(c.syms[i]) <= b
    ensures var p := Parse(c, b[c.syms[i].len..]); Parse(c, b) == p.(out := [c.syms[i].chr] + p.out)
  {
    PrefixFree(c, i, Find(c.syms, b), b);
  }

  lemma ParseEos(c: Code, b: bits)
    requires WfCode(c) && Eos() <= b
    ensures Parse(c, b) == Parsed([], [], true)
  {
    var i := Find(c.syms, b);
    if i < 256 { CodeExcludesEos(c, i, b); }
  }

  lemma ParseStuck(c: Code, b: bits)
    requires forall i :: 0 <= i < |c.syms| ==> !(CodeOf(c.syms[i]) <= b)
    requires !(Eos() <= b)
    ensures Parse(c, b) == Parsed([], b, false)
  {}

  /** Symbols in front of what was read. */
  function Prepend(s: seq<byte>, p: Parsed): Parsed {
    p.(out := s + p.out)
  }

  lemma PrependTwice(s: seq<byte>, t: seq<byte>, p: Parsed)
    ensures Prepend(s, Prepend(t, p)) == Prepend(s + t, p)
    ensures Prepend([], p) == p
  {
    assert s + (t + p.out) == s + t + p.out;
  }

  /** Reading may stop anywhere and go on from the left-over bits. */
  lemma {:induction false} ParseAppend(c: Code, a: bits, b: bits)
    requires WfCode(c)
    ensures var p := Parse(c, a); Parse(c, a + b) == if p.eos then p else Prepend(p.out, Parse(c, p.rest + b))
    decreases |a|
  {
    hide CodeOf; hide Eos; hide Parse;
    var i := Find(c.syms, a);
    assert |c.syms| == 256;
    if i < 256 {
      var l := c.syms[i].len;
      ParseSym(c, i, a);
      ParseSym(c, i, a + b);
      hide WfCode; hide Find;
      assert (a + b)[l..] == a[l..] + b;
      ParseAppend(c, a[l..], b);
      var p := Parse(c, a[l..]);
      if !p.eos { PrependTwice([c.syms[i].chr], p.out, Parse(c, p.rest + b)); }
    } else if Eos() <= a {
      ParseEos(c, a);
      ParseEos(c, a + b);
    } else {
      ParseStuck(c, a);
      PrependTwice([], [], Parse(c, a + b));
    }
  }

  lemma {:induction false} ParseEncoded(c: Code, s: seq<byte>, b: bits)
    requires WfCode(c)
    ensures Parse(c, EncBits(c, s) + b) == Prepend(s, Parse(c, b))
  {
    hide Parse; hide CodeOf;
    var p := Parse(c, b);
    if s == [] {
      assert EncBits(c, s) + b == b;
      PrependTwice([], [], p);
    } else {
      var i, t := c.enc[s[0]], EncBits(c, s[1..]);
      var x, w := CodeOf(c.syms[i]), EncBits(c, s) + b;
      assert c.syms[i].chr == s[0];
      assert w == x + (t + b);
      AppendTake(x, t + b);
      ParseSym(c, i, w);
      hide WfCode; hide EncBits;
      ParseEncoded(c, s[1..], b);
      PrependTwice([s[0]], s[1..], p);
      assert [s[0]] + s[1..] == s;
    }
  }

  lemma {:induction false} ParsedIsEncoded(c: Code, b: bits)
    requires WfCode(c)
    ensures var p := Parse(c, b); !p.eos ==> b == EncBits(c, p.out) + p.rest
    decreases |b|
  {
    hide CodeOf; hide Eos; hide Parse; hide EncBits;
    var i := Find(c.syms, b);
    if i < |c.syms| {
      var y := c.syms[i];
      var q := Parse(c, b[y.len..]);
      ParseSym(c, i, b);
      EncCons(c, y, q.out);
      hide WfCode; hide Find;
      ParsedIsEncoded(c, b[y.len..]);
      assert b == CodeOf(y) + b[y.len..];
    } else if Eos() <= b {
      ParseEos(c, b);
    } else {
      ParseStuck(c, b);
      EncNil(c);
      assert b == [] + b;
    }
  }

  lemma EncNil(c: Code)
    requires WfCode(c)
    ensures EncBits(c, []) == []
  {
  }

  lemma EncCons(c: Code, y: Sym, s: seq<byte>)
    requires WfCode(c) && y in c.syms
    ensures EncBits(c, [y.chr] + s) == CodeOf(y) + EncBits(c, s)
  {
    assert ([y.chr] + s)[1..] == s;
  }

  // ---- padding, and the octets accepted by the decoder ----

  /** Section 5.2 of RFC 7541: what is left must be the first bits of EOS, fewer than 8 of them. */
  predicate Padding(b: bits) {
    |b| < 8 && b == Ones(|b|)
  }

  /** The outcome of decoding a whole string of octets: `None` is HPACK_RES_HUF. */
  function Decoded(c: Code, s: seq<byte>): Option<seq<byte>> {
    var p := Parse(c, OfOctets(s));
    if !p.eos && Padding(p.rest) then Some(p.out) else None
  }

  lemma ParsePadding(c: Code, n: nat)
    requires WfCode(c) && n < 8
    ensures Parse(c, Ones(n)) == Parsed([], Ones(n), false)
  {
    var i := Find(c.syms, Ones(n));
    assert Ones(n) <= Eos();
  }

  /** Decoding is exact: it gives `s` exactly for the codes of `s` padded with fewer than 8 one bits. */
  lemma DecodedExactly(c: Code, octets: seq<byte>, s: seq<byte>)
    requires WfCode(c)
    ensures Decoded(c, octets) == Some(s)
       <==> exists n: nat :: n < 8 && OfOctets(octets) == EncBits(c, s) + Ones(n)
  {
    hide Parse; hide EncBits; hide OfOctets; hide WfCode;
    var b := OfOctets(octets);
    if Decoded(c, octets) == Some(s) {
      ParsedIsEncoded(c, b);
      var n := |Parse(c, b).rest|;
      assert n < 8 && b == EncBits(c, s) + Ones(n);
    }
    if n: nat :| n < 8 && b == EncBits(c, s) + Ones(n) {
      ParseEncoded(c, s, Ones(n));
      ParsePadding(c, n);
      assert s + [] == s;
    }
  }
}

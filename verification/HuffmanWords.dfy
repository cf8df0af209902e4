/** How to spell a text with the code of RFC 7541, and check it against octets piece by piece. */
module HuffmanWords {
  import opened Common
  import opened Bits
  import opened Validate
  import opened HuffmanCode
  import opened EncoderSpec
  import opened HpackEncoder
  import opened RfcCode

  predicate IsAscii(s: string) {
    forall i :: 0 <= i < |s| ==> s[i] < '\U{0080}'
  }

  function Letter(c: char): Sym
    requires c < '\U{0080}'
  {
    Rfc7541IsCode();
    SymOf(Rfc7541(), c as int)
  }

  function Shift(v: nat, n: nat): nat {
    if n == 5 then v * 0x20 else if n == 6 then v * 0x40 else if n == 7 then v * 0x80 else if n == 8 then v * 0x100
    else v * Pow2(n)
  }

  /** The number that the bits of `p` and of the first `k` codes of `s` make. */
  function Num(p: nat, s: string, k: nat): nat
    requires k <= |s| && IsAscii(s)
  {
    if k == 0 then p else Shift(Num(p, s, k - 1), Letter(s[k - 1]).len) + Letter(s[k - 1]).cod
  }

  /** How many bits these codes have. */
  function Size(s: string, k: nat): nat
    requires k <= |s| && IsAscii(s)
  {
    if k == 0 then 0 else Size(s, k - 1) + Letter(s[k - 1]).len
  }

  /** The number that the first `k` octets make. */
  function Big(o: seq<byte>, k: nat): nat
    requires k <= |o|
  {
    if k == 0 then 0 else Big(o, k - 1) * 0x100 + o[k - 1]
  }

  /** After `n` bits that make `p`, the codes of `s` fill the octets `o` and leave `m` bits that make `q`. */
  ghost predicate Part(p: nat, n: nat, s: string, o: seq<byte>, q: nat, m: nat) {
    && IsAscii(s) && WfCode(Rfc7541()) && n < 8 && m < 8 && p < Pow2(n) && q < Pow2(m)
    && Of(p, n) + EncBits(Rfc7541(), Ascii(s)) == OfOctets(o) + Of(q, m)
  }

  lemma ShiftIs(v: nat, n: nat)
    ensures Shift(v, n) == v * Pow2(n)
  {
    Pow2Table();
    hide Pow2;
  }

  lemma EncNext(c: Code, s: string, k: nat)
    requires 0 < k <= |s| && IsAscii(s) && WfCode(c) && c == Rfc7541()
    ensures EncBits(c, Ascii(s)[..k]) == EncBits(c, Ascii(s)[..k - 1]) + CodeOf(Letter(s[k - 1]))
  {
    hide Rfc7541; hide WfCode; hide EncBits; hide CodeOf; hide Letter; hide SymOf;
    var a := Ascii(s);
    assert a[..k - 1] + [a[k - 1]] == a[..k];
    hide Ascii;
    EncSnoc(c, a[..k - 1], a[k - 1]);
    LetterIs(c, s, k - 1);
  }

  /** One code more. */
  lemma NumNext(b: bits, y: Sym)
    requires y.cod < Pow2(y.len)
    ensures Val(b + CodeOf(y)) == Shift(Val(b), y.len) + y.cod
  {
    ValAppend(b, CodeOf(y));
    ValOf(y.cod, y.len);
    ShiftIs(Val(b), y.len);
    hide Val; hide Shift; hide Pow2; hide Of;
  }

  lemma NumNone(c: Code, a: seq<byte>, p: nat, n: nat)
    requires WfCode(c) && p < Pow2(n)
    ensures Of(p, n) + EncBits(c, a[..0]) == Of(p, n) && Val(Of(p, n)) == p
  {
    EncNil(c);
    ValOf(p, n);
    hide WfCode; hide EncBits; hide Of; hide Val; hide Pow2;
    assert a[..0] == [];
  }

  lemma {:induction false} NumIs(p: nat, n: nat, s: string, k: nat)
    requires k <= |s| && IsAscii(s) && WfCode(Rfc7541()) && p < Pow2(n)
    ensures var b := Of(p, n) + EncBits(Rfc7541(), Ascii(s)[..k]); Val(b) == Num(p, s, k) && |b| == n + Size(s, k)
    decreases k
  {
    var c, a := Rfc7541(), Ascii(s);
    assert |a| == |s|;
    hide Pow2; hide WfCode; hide Rfc7541; hide Val; hide Of; hide CodeOf; hide Ascii; hide Shift; hide Letter; hide SymOf;
    hide EncBits;
    if k == 0 {
      NumNone(c, a, p, n);
    } else {
      var y := Letter(s[k - 1]);
      LetterIs(c, s, k - 1);
      NumIs(p, n, s, k - 1);
      EncNext(c, s, k);
      Assoc(Of(p, n), EncBits(c, a[..k - 1]), CodeOf(y));
      NumNext(Of(p, n) + EncBits(c, a[..k - 1]), y);
    }
  }

  lemma LetterIs(c: Code, s: string, k: nat)
    requires k < |s| && IsAscii(s) && WfCode(c) && c == Rfc7541()
    ensures Letter(s[k]) == SymOf(c, Ascii(s)[k]) && Letter(s[k]).cod < Pow2(Letter(s[k]).len)
  {
    SymBounds(c, Ascii(s)[k]);
    hide Rfc7541; hide WfCode; hide Pow2;
  }

  lemma {:induction false} BigIs(o: seq<byte>, k: nat)
    requires k <= |o|
    ensures Val(OfOctets(o[..k])) == Big(o, k)
    decreases k
  {
    hide Val; hide Of;
    if k == 0 {
      NoBits();
      assert o[..0] == [];
    } else {
      BigIs(o, k - 1);
      assert o[..k - 1] + [o[k - 1]] == o[..k];
      OneOctet(o[..k - 1], o[k - 1]);
      Pow2Table();
      hide Pow2; hide OfOctets;
      ValAppend(OfOctets(o[..k - 1]), Of(o[k - 1], 8));
      ValOf(o[k - 1], 8);
    }
  }

  lemma NoBits()
    ensures Val(OfOctets([])) == 0
  {
  }

  /** The numbers agree, and so do the bits. */
  lemma PartIs(p: nat, n: nat, s: string, o: seq<byte>, q: nat, m: nat)
    requires IsAscii(s) && n < 8 && m < 8 && p < Pow2(n) && q < Pow2(m)
    requires n + Size(s, |s|) == 8 * |o| + m && Num(p, s, |s|) == Big(o, |o|) * Pow2(m) + q
    ensures Part(p, n, s, o, q, m)
  {
    Rfc7541IsCode();
    hide Rfc7541; hide WfCode; hide Val; hide Of; hide Pow2; hide OfOctets; hide EncBits;
    NumIs(p, n, s, |s|);
    BigIs(o, |o|);
    assert Ascii(s)[..|s|] == Ascii(s) && o[..|o|] == o;
    hide Ascii;
    ValAppend(OfOctets(o), Of(q, m));
    ValOf(q, m);
    ValInjective(Of(p, n) + EncBits(Rfc7541(), Ascii(s)), OfOctets(o) + Of(q, m));
  }

  lemma {:induction false} EncAppend(c: Code, a: seq<byte>, b: seq<byte>)
    requires WfCode(c)
    ensures EncBits(c, a + b) == EncBits(c, a) + EncBits(c, b)
    decreases |a|
  {
    hide WfCode; hide CodeOf;
    if a == [] {
      assert a + b == b;
    } else {
      assert (a + b)[1..] == a[1..] + b;
      EncAppend(c, a[1..], b);
      var x := CodeOf(SymOf(c, a[0]));
      assert x + EncBits(c, a[1..]) + EncBits(c, b) == x + (EncBits(c, a[1..]) + EncBits(c, b));
    }
  }

  lemma Assoc(a: bits, b: bits, c: bits)
    ensures a + b + c == a + (b + c)
  {
  }

  lemma Regroup(x: bits, y: bits, z: bits, o: bits, q: bits, u: bits, r: bits)
    requires x + y == o + q && q + z == u + r
    ensures x + (y + z) == o + u + r
  {
    Assoc(x, y, z);
    Assoc(o, q, z);
    Assoc(o, u, r);
  }

  /** Two parts. */
  lemma PartsJoin(p: nat, n: nat, s: string, o: seq<byte>, q: nat, m: nat, t: string, u: seq<byte>, r: nat, k: nat)
    requires Part(p, n, s, o, q, m) && Part(q, m, t, u, r, k)
    ensures Part(p, n, s + t, o + u, r, k)
  {
    hide Rfc7541; hide WfCode; hide Of; hide Pow2;
    assert Ascii(s + t) == Ascii(s) + Ascii(t);
    hide Ascii;
    EncAppend(Rfc7541(), Ascii(s), Ascii(t));
    OfOctetsAppend(o, u);
    hide EncBits; hide OfOctets;
    Regroup(Of(p, n), EncBits(Rfc7541(), Ascii(s)), EncBits(Rfc7541(), Ascii(t)), OfOctets(o), Of(q, m), OfOctets(u), Of(r, k));
  }

  lemma PaddedIs(c: Code, a: seq<byte>, o: seq<byte>, q: nat, m: nat, last: seq<byte>)
    requires WfCode(c) && EncBits(c, a) == OfOctets(o) + Of(q, m) && m < 8
    requires OfOctets(last) == Of(q, m) + Ones(if m == 0 then 0 else 8 - m)
    ensures Padded(c, a) == OfOctets(o + last)
  {
    hide WfCode; hide EncBits; hide Ones; hide Of; hide OfOctets;
    OfOctetsAppend(o, last);
    PadIs(|o|, m);
    Assoc(OfOctets(o), Of(q, m), Ones(if m == 0 then 0 else 8 - m));
  }

  /** The whole of a text: what HPH_encode writes of it. */
  lemma Word(s: string, o: seq<byte>, q: nat, m: nat, last: seq<byte>)
    requires Part(0, 0, s, o, q, m)
    requires if m == 0 then last == [] else |last| == 1 && last[0] == q * Pow2(8 - m) + Pow2(8 - m) - 1
    ensures WfCode(Rfc7541()) && HufEnc(Rfc7541(), Ascii(s)) == o + last
  {
    var c, a := Rfc7541(), Ascii(s);
    assert Of(0, 0) + EncBits(c, a) == EncBits(c, a);
    LastBits(q, m, last);
    hide Rfc7541; hide WfCode; hide Ascii; hide EncBits; hide Ones; hide ToOctets; hide Of; hide OfOctets; hide Pow2; hide Padded;
    PaddedIs(c, a, o, q, m, last);
    OctetsOfBits(Padded(c, a));
    OctetsInjective(HufEnc(c, a), o + last);
  }

  lemma PadIs(n: nat, m: nat)
    requires m < 8
    ensures PadLen(8 * n + m) == if m == 0 then 0 else 8 - m
  {
  }

  lemma OneOctetBits(last: seq<byte>)
    requires |last| == 1
    ensures OfOctets(last) == Of(last[0], 8)
  {
    assert last[1..] == [];
    hide Of;
    assert OfOctets(last) == Of(last[0], 8) + [];
  }

  lemma LastBits(q: nat, m: nat, last: seq<byte>)
    requires m < 8 && q < Pow2(m)
    requires if m == 0 then last == [] else |last| == 1 && last[0] == q * Pow2(8 - m) + Pow2(8 - m) - 1
    ensures OfOctets(last) == Of(q, m) + Ones(if m == 0 then 0 else 8 - m)
  {
    if m > 0 {
      OneOctetBits(last);
      ValAppend(Of(q, m), Ones(8 - m));
      ValOf(q, m);
      ValOnes(8 - m);
      OctetBound();
      hide Pow2;
      ValOf(last[0], 8);
      hide Of; hide Ones; hide Val; hide OfOctets;
      ValInjective(Of(last[0], 8), Of(q, m) + Ones(8 - m));
    }
  }

  lemma OctetBound()
    ensures Pow2(8) == 0x100
  {
    Pow2Table();
  }
}

/**
 Canonical code lists. Aligned left in 32 bits, every code spans an interval, and the intervals follow each other from 0 up
 to the end-of-string code.
 */
module Canonical {
  import opened Common
  import opened Bits
  import opened HuffmanCode

  /** The end-of-string code, aligned left. */
  const END: nat := 0xffff_fffc

  /** `hph->msb` */
  function Msb(s: Sym): nat
    requires s.len <= 32
  {
    s.cod * Pow2(32 - s.len)
  }

  ghost predicate Sized(syms: seq<Sym>) {
    |syms| == 256 && forall i :: 0 <= i < 256 ==> 5 <= syms[i].len <= 30 && syms[i].cod < Pow2(syms[i].len)
  }

  /** Where the code `i` starts; the end-of-string code comes last. */
  function Start(syms: seq<Sym>, i: nat): nat
    requires Sized(syms) && i <= 256
  {
    if i == 256 then END else Msb(syms[i])
  }

  /** What is left of a code space of 32 bits past the length of a code. */
  function Span(s: Sym): nat
    requires s.len <= 32
  {
    Pow2(32 - s.len)
  }

  ghost predicate WfSyms(syms: seq<Sym>) {
    && Sized(syms)
    && Start(syms, 0) == 0
    && (forall i :: 0 <= i < 256 ==> Start(syms, i + 1) == Start(syms, i) + Span(syms[i]))
    && (forall i :: 0 <= i < 255 ==> syms[i].len <= syms[i + 1].len)
  }

  /** Bits aligned left in 32 bits. */
  function Align(b: bits): nat
    requires |b| <= 32
  {
    Val(b) * Pow2(32 - |b|)
  }

  lemma DivScaled(v: nat, d: nat, e: nat)
    requires d > 0 && e > 0
    ensures d * e > 0 && (v * e) / (d * e) == v / d
  {
    DivMod(v, d);
    var q, r := v / d, v % d;
    assert d * e > 0 by { MulLe(d, e); }
    assert v * e == q * (d * e) + r * e by { assert v * e == q * d * e + r * e; assert q * d * e == q * (d * e); }
    assert r * e < d * e by { MulLe(d - r, e); assert (d - r) * e == d * e - r * e; }
    DivUnique(q, d * e, r * e);
  }

  lemma DivInterval(x: nat, w: nat, c: nat)
    requires w > 0
    ensures x / w == c <==> c * w <= x < c * w + w
  {
    DivMod(x, w);
    if c * w <= x < c * w + w { DivUnique(c, w, x - c * w); }
  }

  /** The test of dec_make_hit: a code is a prefix of `b` when `b` aligned left, shifted right, is that code. */
  lemma PrefixIffShift(s: Sym, b: bits)
    requires s.len <= |b| <= 32 && s.cod < Pow2(s.len)
    ensures CodeOf(s) <= b <==> Align(b) / Span(s) == s.cod
  {
    PrefixIffVal(CodeOf(s), b);
    ValOf(s.cod, s.len);
    Pow2Add(|b| - s.len, 32 - |b|);
    DivScaled(Val(b), Pow2(|b| - s.len), Pow2(32 - |b|));
  }

  /** ...that is when it lies in the interval of the code. */
  lemma PrefixIffInterval(s: Sym, b: bits)
    requires s.len <= |b| <= 32 && s.cod < Pow2(s.len)
    ensures CodeOf(s) <= b <==> Msb(s) <= Align(b) < Msb(s) + Span(s)
  {
    PrefixIffShift(s, b);
    DivInterval(Align(b), Span(s), s.cod);
    hide Align;
  }

  lemma {:induction false} StartOrder(syms: seq<Sym>, i: nat, j: nat)
    requires WfSyms(syms) && i < j <= 256
    ensures Start(syms, i) + Span(syms[i]) <= Start(syms, j) <= END
    ensures j < 256 ==> syms[i].len <= syms[j].len
    decreases 256 - i
  {
    assert Start(syms, i + 1) == Start(syms, i) + Span(syms[i]);
    if i + 1 < j {
      StartOrder(syms, i + 1, j);
    } else if j < 256 {
      StartOrder(syms, j, 256);
    }
  }

  /** The interval of a code that spans `x`. */
  lemma OnlyOne(syms: seq<Sym>, i: nat, j: nat, x: nat)
    requires WfSyms(syms) && i < 256 && j < 256
    requires Start(syms, i) <= x < Start(syms, i) + Span(syms[i]) && Start(syms, j) <= x < Start(syms, j) + Span(syms[j])
    ensures i == j
  {
    hide WfSyms;
    if i < j { StartOrder(syms, i, j); }
    if j < i { StartOrder(syms, j, i); }
  }

  lemma EosAlign()
    ensures Align(Eos()) == END
  {
    ValOnes(30);
    Pow2Table();
    Pow2Add(14, 16);
    assert Pow2(30) == 0x4000_0000;
  }

  lemma SizedAt(syms: seq<Sym>, i: nat)
    requires WfSyms(syms) && i < 256
    ensures 5 <= syms[i].len <= 30 && syms[i].cod < Pow2(syms[i].len)
  {
  }

  /** A canonical list is a prefix code that spares EOS. */
  lemma CanonicalIsPrefixFree(syms: seq<Sym>, i: nat, j: nat)
    requires WfSyms(syms) && i < 256 && j < 256
    ensures CodeOf(syms[i]) <= CodeOf(syms[j]) ==> i == j
    ensures !(CodeOf(syms[i]) <= Eos())
  {
    SizedAt(syms, i);
    SizedAt(syms, j);
    var b := CodeOf(syms[j]);
    if CodeOf(syms[i]) <= b {
      PrefixIffInterval(syms[i], b);
      PrefixIffInterval(syms[j], b);
      assert b <= b;
      OnlyOne(syms, i, j, Align(b));
    }
    PrefixIffInterval(syms[i], Eos());
    EosAlign();
    StartOrder(syms, i, 256);
  }

  /** The table printed by gen/hpack_huf_enc.c inverts the character column. */
  ghost predicate Inverse(syms: seq<Sym>, enc: seq<nat>)
    requires |syms| == 256
  {
    && |enc| == 256
    && (forall k: byte :: enc[k] < 256 && syms[enc[k]].chr == k)
    && (forall i :: 0 <= i < 256 ==> enc[syms[i].chr] == i)
  }

  lemma CanonicalIsCode(syms: seq<Sym>, enc: seq<nat>)
    requires WfSyms(syms) && Inverse(syms, enc)
    ensures WfCode(Code(syms, enc))
  {
    forall i, j | 0 <= i < 256 && 0 <= j < 256
      ensures CodeOf(syms[i]) <= CodeOf(syms[j]) ==> i == j
      ensures !(CodeOf(syms[i]) <= Eos())
    {
      CanonicalIsPrefixFree(syms, i, j);
    }
    hide CodeOf; hide Eos;
  }
}

/** Bit strings, most significant bit first. */
module Bits {
  import opened Common

  type bits = seq<bool>

  function Val(b: bits): (v: nat)
    ensures v < Pow2(|b|)
  {
    if b == [] then 0 else 2 * Val(b[..|b| - 1]) + (if b[|b| - 1] then 1 else 0)
  }

  function Of(v: nat, n: nat): (b: bits)
    ensures |b| == n
  {
    if n == 0 then [] else Of(v / 2, n - 1) + [v % 2 == 1]
  }

  function Ones(n: nat): (b: bits)
    ensures |b| == n
  {
    seq(n, i => true)
  }

  function Zeros(n: nat): (b: bits)
    ensures |b| == n
  {
    seq(n, i => false)
  }

  /** The bits of a sequence of octets. */
  function OfOctets(s: seq<byte>): (b: bits)
    ensures |b| == 8 * |s|
  {
    if s == [] then [] else Of(s[0], 8) + OfOctets(s[1..])
  }

  lemma {:induction false} OfOctetsAppend(a: seq<byte>, b: seq<byte>)
    ensures OfOctets(a + b) == OfOctets(a) + OfOctets(b)
  {
    if a == [] {
      assert a + b == b;
    } else {
      assert (a + b)[1..] == a[1..] + b;
      OfOctetsAppend(a[1..], b);
    }
  }

  lemma {:induction false} ValOf(v: nat, n: nat)
    requires v < Pow2(n)
    ensures Val(Of(v, n)) == v
  {
    if n > 0 {
      ValOf(v / 2, n - 1);
      assert Of(v, n)[..n - 1] == Of(v / 2, n - 1);
    }
  }

  lemma {:induction false} OfVal(b: bits)
    ensures Of(Val(b), |b|) == b
  {
    if b != [] {
      OfVal(b[..|b| - 1]);
      assert b == b[..|b| - 1] + [b[|b| - 1]];
    }
  }

  lemma ValInjective(a: bits, b: bits)
    requires |a| == |b| && Val(a) == Val(b)
    ensures a == b
  {
    OfVal(a);
    OfVal(b);
  }

  lemma DoubleMul(a: nat, b: nat)
    ensures a * (2 * b) == 2 * (a * b)
  {}

  lemma {:induction false} ValAppend(a: bits, b: bits)
    ensures Val(a + b) == Val(a) * Pow2(|b|) + Val(b)
  {
    if b == [] {
      assert a + b == a;
    } else {
      var b', t := b[..|b| - 1], if b[|b| - 1] then 1 else 0;
      var v, p, ab := Val(a), Pow2(|b'|), a + b;
      ValAppend(a, b');
      assert Val(ab) == 2 * (v * p + Val(b')) + t by {
        assert ab[..|ab| - 1] == a + b';
        assert ab[|ab| - 1] == b[|b| - 1];
      }
      DoubleMul(v, p);
    }
  }

  lemma {:induction false} ValZeros(n: nat)
    ensures Val(Zeros(n)) == 0
  {
    if n > 0 {
      ValZeros(n - 1);
      assert Zeros(n)[..n - 1] == Zeros(n - 1);
    }
  }

  lemma {:induction false} ValOnes(n: nat)
    ensures Val(Ones(n)) == Pow2(n) - 1
  {
    if n > 0 {
      ValOnes(n - 1);
      assert Ones(n)[..n - 1] == Ones(n - 1);
    }
  }

  /** Shifting right keeps the leading bits. */
  lemma ValTake(b: bits, k: nat)
    requires k <= |b|
    ensures Val(b) / Pow2(|b| - k) == Val(b[..k])
  {
    hide Val; hide Pow2;
    assert b == b[..k] + b[k..];
    ValAppend(b[..k], b[k..]);
    DivUnique(Val(b[..k]), Pow2(|b| - k), Val(b[k..]));
  }

  /** Reducing modulo a power of two keeps the trailing bits. */
  lemma ValDrop(b: bits, k: nat)
    requires k <= |b|
    ensures Val(b) % Pow2(|b| - k) == Val(b[k..])
  {
    hide Val; hide Pow2;
    assert b == b[..k] + b[k..];
    ValAppend(b[..k], b[k..]);
    DivUnique(Val(b[..k]), Pow2(|b| - k), Val(b[k..]));
  }

  /** Shifting left in a fixed width drops the leading bits and fills with zeros. */
  lemma ValShiftLeft(b: bits, k: nat)
    requires k <= |b|
    ensures (Val(b) * Pow2(k)) % Pow2(|b|) == Val(b[k..] + Zeros(k))
  {
    hide Val; hide Pow2;
    ValAppend(b, Zeros(k));
    ValZeros(k);
    var w := b + Zeros(k);
    ValDrop(w, k);
    assert w[k..] == b[k..] + Zeros(k);
  }

  /** The prefix order on bit strings is inclusion of the intervals they span. */
  lemma PrefixIffVal(a: bits, b: bits)
    requires |a| <= |b|
    ensures a <= b <==> Val(b) / Pow2(|b| - |a|) == Val(a)
  {
    ValTake(b, |a|);
    if Val(b[..|a|]) == Val(a) { ValInjective(b[..|a|], a); }
  }
}

/** The accumulator of HPH_encode: 64 bits wide, of which only the low ones are pending. */
module HuffmanEncode {
  import opened Common
  import opened Bits
  import opened HuffmanCode

  const W64: nat := 0x1_0000_0000_0000_0000

  type u64 = v: int | 0 <= v < W64

  /** The pending bits are the low bits; those above are stale and never cleared. */
  predicate Pending(acc: nat, pend: bits) {
    acc % Pow2(|pend|) == Val(pend)
  }

  lemma Pow2Of64()
    ensures Pow2(64) == W64
  {
    Pow2Table();
    Pow2Add(16, 16);
    Pow2Add(32, 32);
  }

  /** Two reductions, one of them by a multiple of the other. */
  lemma ModMod(x: nat, a: nat, b: nat)
    requires a > 0 && b > 0
    ensures a * b > 0 && (x % (a * b)) % a == x % a
  {
    var m := a * b;
    assert m > 0 by { MulLe(a, b); }
    DivMod(x, m);
    DivMod(x % m, a);
    var q, r, s := x / m, (x % m) / a, (x % m) % a;
    assert q * m == q * b * a by { MulAssoc(q, b, a); }
    assert x == (q * b + r) * a + s;
    DivUnique(q * b + r, a, s);
  }

  lemma NotAbove(r: nat, b: nat, a: nat)
    requires r * a < a * b
    ensures r < b
  {
    MulLe(r - b, a);
    assert (r - b) * a == r * a - b * a;
  }

  /** The bits of `x` between two positions. */
  lemma DivThenMod(x: nat, a: nat, b: nat)
    requires a > 0 && b > 0
    ensures a * b > 0 && (x / a) % b == (x % (a * b)) / a
  {
    var m := a * b;
    assert m > 0 by { MulLe(a, b); }
    DivMod(x, m);
    DivMod(x % m, a);
    var q, r, s := x / m, (x % m) / a, (x % m) % a;
    assert q * m == q * b * a by { MulAssoc(q, b, a); }
    assert x == (q * b + r) * a + s;
    DivUnique(q * b + r, a, s);
    NotAbove(r, b, a);
    DivUnique(q, b, r);
  }

  /** Shifting left by `l` in 64 bits, seen in the low `n + l` bits. */
  lemma ShiftLow(acc: nat, n: nat, l: nat)
    requires n + l <= 64
    ensures var h := acc % Pow2(64 - l);
            acc * Pow2(l) % W64 == h * Pow2(l) && h % Pow2(n) == acc % Pow2(n)
  {
    Pow2Of64();
    hide Pow2;
    Pow2Add(64 - l, l);
    Pow2Add(n, 64 - l - n);
    var p, q := Pow2(64 - l), Pow2(l);
    DivMod(acc, p);
    var d, h := acc / p, acc % p;
    assert acc * q == d * W64 + h * q by {
      assert acc * q == d * p * q + h * q;
      MulAssoc(d, p, q);
    }
    assert h * q < W64 by { MulLe(p - h, q); assert (p - h) * q == p * q - h * q; }
    DivUnique(d, W64, h * q);
    ModMod(acc, Pow2(n), Pow2(64 - l - n));
  }

  /** `bits = (bits << len) | cod` */
  lemma Push(acc: nat, pend: bits, s: Sym)
    requires Pending(acc, pend) && |pend| + s.len <= 64 && s.cod < Pow2(s.len)
    ensures var a := Or(acc * Pow2(s.len) % W64, s.cod); a < W64 && Pending(a, pend + CodeOf(s))
  {
    ValOf(s.cod, s.len);
    Append(acc, pend, s.len, s.cod, CodeOf(s));
  }

  /** Below a multiple. */
  lemma Below(h: nat, m: nat, q: nat, v: nat)
    requires h < m && v < q
    ensures h * q + v < m * q
  {
    MulLe(m - h, q);
    assert (m - h) * q == m * q - h * q;
  }

  lemma LowPart(h: nat, p: nat, q: nat, v: nat)
    requires p > 0 && v < q
    ensures p * q > 0 && (h * q + v) % (p * q) == (h % p) * q + v
  {
    DivMod(h, p);
    var d, r := h / p, h % p;
    assert h * q == d * p * q + r * q;
    MulAssoc(d, p, q);
    Below(r, p, q, v);
    DivUnique(d, p * q, r * q + v);
  }

  /** The same for any `v` of `l` bits. */
  lemma Append(acc: nat, pend: bits, l: nat, v: nat, b: bits)
    requires Pending(acc, pend) && |pend| + l <= 64 && v < Pow2(l) && |b| == l && Val(b) == v
    ensures var a := Or(acc * Pow2(l) % W64, v); a < W64 && Pending(a, pend + b)
  {
    var n := |pend|;
    var h := acc % Pow2(64 - l);
    hide Pow2; hide Or; hide Val;
    ShiftLow(acc, n, l);
    OrDisjoint(h, l, v);
    ValAppend(pend, b);
    Pow2Add(n, l);
    Pow2Add(64 - l, l);
    Pow2Of64();
    Below(h, Pow2(64 - l), Pow2(l), v);
    LowPart(h, Pow2(n), Pow2(l), v);
  }

  /** `bits >> sz`, cut to an octet: the eight oldest pending bits. */
  lemma Pop(acc: nat, pend: bits)
    requires Pending(acc, pend) && |pend| >= 8
    ensures acc / Pow2(|pend| - 8) % 0x100 == Val(pend[..8]) && Pending(acc, pend[8..])
  {
    var n := |pend| - 8;
    Pow2Table();
    hide Pow2; hide Val;
    Pow2Add(n, 8);
    DivThenMod(acc, Pow2(n), 0x100);
    ModMod(acc, Pow2(n), 0x100);
    ValTake(pend, 8);
    ValDrop(pend, 8);
  }

  /** The last octet: what is pending, padded with ones. */
  lemma Flush(acc: nat, pend: bits)
    requires Pending(acc, pend) && 0 < |pend| < 8
    ensures var p := 8 - |pend|; Or(acc * Pow2(p) % W64, Pow2(p) - 1) % 0x100 == Val(pend + Ones(p))
  {
    var p := 8 - |pend|;
    Pow2Table();
    ValOnes(p);
    Append(acc, pend, p, Pow2(p) - 1, Ones(p));
  }
}

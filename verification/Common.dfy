/** Fixed-width values, memory blocks and bit operations shared by every component. */
module Common {

  type byte = b: int | 0 <= b < 0x100
  type u16 = v: int | 0 <= v < 0x1_0000

  datatype Option<+T> = None | Some(value: T)

  /** The results of `enum hpack_result_e` that this model can produce. */
  datatype Res = OK | BLK | FLD | NAM | ARG | BUF | INT | IDX | LEN | HUF | CHR | UPD | RSZ | BSY | SKP | HDR | BIG

  function Min(a: int, b: int): int { if a < b then a else b }

  function Pow2(n: nat): (p: nat)
    ensures p >= 1
  {
    if n == 0 then 1 else 2 * Pow2(n - 1)
  }

  lemma {:induction false} Pow2Add(a: nat, b: nat)
    ensures Pow2(a + b) == Pow2(a) * Pow2(b)
  {
    if b > 0 {
      Pow2Add(a, b - 1);
      assert Pow2(a) * (2 * Pow2(b - 1)) == 2 * (Pow2(a) * Pow2(b - 1));
    }
  }

  lemma {:induction false} Pow2Mono(a: nat, b: nat)
    requires a <= b
    ensures Pow2(a) <= Pow2(b)
  {
    if a < b { Pow2Mono(a, b - 1); }
  }

  lemma Pow2Table()
    ensures Pow2(1) == 2 && Pow2(2) == 4 && Pow2(3) == 8 && Pow2(4) == 16
    ensures Pow2(5) == 32 && Pow2(6) == 64 && Pow2(7) == 128 && Pow2(8) == 256
    ensures Pow2(14) == 0x4000 && Pow2(16) == 0x1_0000
  {
    assert Pow2(4) == 16;
    Pow2Add(4, 4);
    Pow2Add(8, 6);
    Pow2Add(8, 8);
  }

  lemma MulLe(k: int, d: int)
    requires d >= 0
    ensures k >= 1 ==> k * d >= d
    ensures k <= -1 ==> k * d <= -d
  {
    if k >= 1 { assert (k - 1) * d >= 0; }
    if k <= -1 { assert (-1 - k) * d >= 0; }
  }

  lemma MulAssoc(a: int, b: int, c: int)
    ensures a * b * c == a * (b * c)
  {}

  lemma MulAdd(a: int, b: int, c: int)
    ensures (a + b) * c == a * c + b * c && (a - b) * c == a * c - b * c
  {}

  lemma DivMod(x: int, d: int)
    requires d > 0
    ensures x == (x / d) * d + x % d && 0 <= x % d < d
  {}

  /** Quotient and remainder of `q * d + r`. */
  lemma DivUnique(q: int, d: int, r: int)
    requires 0 <= r < d
    ensures (q * d + r) / d == q && (q * d + r) % d == r
  {
    var x := q * d + r;
    DivMod(x, d);
    var y, z := x / d, x % d;
    var k := q - y;
    assert k * d == q * d - y * d;
    MulLe(k, d);
    assert y == q && z == r;
  }

  /** Bitwise or of two natural numbers, bit by bit. */
  function Or(a: nat, b: nat): nat {
    if a == 0 && b == 0 then 0
    else 2 * Or(a / 2, b / 2) + (if a % 2 == 1 || b % 2 == 1 then 1 else 0)
  }

  /** On disjoint bits, or is addition. */
  lemma {:induction false} OrDisjoint(h: nat, k: nat, l: nat)
    requires l < Pow2(k)
    ensures Or(h * Pow2(k), l) == h * Pow2(k) + l
    decreases k, h
  {
    if k == 0 {
      OrZero(h);
    } else {
      var p := Pow2(k - 1);
      assert h * Pow2(k) == 2 * (h * p);
      assert (h * Pow2(k)) / 2 == h * p && (h * Pow2(k)) % 2 == 0;
      OrDisjoint(h, k - 1, l / 2);
    }
  }

  lemma {:induction false} OrZero(a: nat)
    ensures Or(a, 0) == a
  {
    if a > 0 { OrZero(a / 2); }
  }

  /** Overwrites `|s|` bytes of `m` at offset `at`: what memcpy and memmove do to a block of memory. */
  function Blit(m: seq<byte>, at: nat, s: seq<byte>): (r: seq<byte>)
    requires at + |s| <= |m|
    ensures |r| == |m|
  {
    m[..at] + s + m[at + |s|..]
  }

  lemma BlitAt(m: seq<byte>, at: nat, s: seq<byte>, k: nat)
    requires at + |s| <= |m| && k < |m|
    ensures Blit(m, at, s)[k] == if at <= k < at + |s| then s[k - at] else m[k]
  {
  }

  /** What is outside of the overwritten region stays, what is inside is `s`. */
  lemma BlitSlice(m: seq<byte>, at: nat, s: seq<byte>, i: nat, j: nat)
    requires at + |s| <= |m| && i <= j <= |m|
    ensures j <= at || at + |s| <= i ==> Blit(m, at, s)[i..j] == m[i..j]
    ensures at <= i && j <= at + |s| ==> Blit(m, at, s)[i..j] == s[i - at..j - at]
  {
    var r := Blit(m, at, s);
    forall k | i <= k < j
      ensures r[k] == if at <= k < at + |s| then s[k - at] else m[k]
    {
      BlitAt(m, at, s, k);
    }
    hide Blit;
    if j <= at || at + |s| <= i { SameSlice(r, i, j, m, i); }
    if at <= i && j <= at + |s| { SameSlice(r, i, j, s, i - at); }
  }

  lemma BlitTake(m: seq<byte>, at: nat, s: seq<byte>, l: nat)
    requires at + |s| <= l <= |m|
    ensures Blit(m, at, s)[..l] == Blit(m[..l], at, s)
  {
  }

  /** Equality of two slices, octet by octet. */
  lemma SameSlice<T>(a: seq<T>, i: nat, j: nat, b: seq<T>, o: nat)
    requires i <= j <= |a| && o + (j - i) <= |b|
    requires forall k :: i <= k < j ==> a[k] == b[o + (k - i)]
    ensures a[i..j] == b[o..o + (j - i)]
  {
    var x, y := a[i..j], b[o..o + (j - i)];
    assert |x| == |y|;
    forall k | 0 <= k < |x|
      ensures x[k] == y[k]
    {
      assert x[k] == a[i + k];
    }
  }

  lemma DropDrop<T>(m: seq<T>, i: nat, j: nat)
    requires i + j <= |m|
    ensures m[i..][j..] == m[i + j..]
  {
  }

  lemma DropTake<T>(m: seq<T>, i: nat, n: nat)
    requires i + n <= |m|
    ensures m[i..][..n] == m[i..i + n]
    ensures m[..i + n][i..] == m[i..i + n]
  {
  }

  lemma TakeTake<T>(m: seq<T>, i: nat, j: nat)
    requires j <= i <= |m|
    ensures m[..i][..j] == m[..j]
  {
  }

  /** The middle of three parts. */
  lemma Middle<T>(a: seq<T>, x: seq<T>, b: seq<T>)
    ensures (a + x + b)[|a|..|a| + |x|] == x
  {
  }

  lemma AppendTake<T>(a: seq<T>, b: seq<T>)
    ensures (a + b)[..|a|] == a && (a + b)[|a|..] == b
  {
  }

  lemma SubSlice<T>(m: seq<T>, i: nat, j: nat, a: nat, b: nat)
    requires i <= j <= |m| && a <= b <= j - i
    ensures m[i..j][a..b] == m[i + a..i + b]
  {
    var x, y := m[i..j][a..b], m[i + a..i + b];
    assert |x| == |y|;
    assert forall k :: 0 <= k < |x| ==> x[k] == y[k];
  }

  /** memmove inside one block. */
  function Move(m: seq<byte>, dst: nat, src: nat, n: nat): (r: seq<byte>)
    requires dst + n <= |m| && src + n <= |m|
    ensures |r| == |m|
  {
    Blit(m, dst, m[src..src + n])
  }

  lemma MoveNothing(m: seq<byte>, dst: nat, src: nat)
    requires dst <= |m| && src <= |m|
    ensures Move(m, dst, src, 0) == m
  {
  }

  /** memcpy from a value held outside of the array. */
  method MemCpy(a: array<byte>, at: nat, s: seq<byte>)
    requires at + |s| <= a.Length
    modifies a
    ensures a[..] == Blit(old(a[..]), at, s)
  {
    forall k | 0 <= k < |s| { a[at + k] := s[k]; }
  }

  /** memmove between two possibly overlapping regions of the same array. */
  method MemMove(a: array<byte>, dst: nat, src: nat, n: nat)
    requires dst + n <= a.Length && src + n <= a.Length
    modifies a
    ensures a[..] == Move(old(a[..]), dst, src, n)
  {
    forall k | 0 <= k < n { a[dst + k] := a[src + k]; }
  }

  /** `n` octets of `v`, least significant first: the layout of a C integer on the little-endian hosts modelled here. */
  function Le(v: nat, n: nat): (s: seq<byte>)
    ensures |s| == n
  {
    if n == 0 then [] else [v % 256] + Le(v / 256, n - 1)
  }

  function LeVal(s: seq<byte>): nat {
    if s == [] then 0 else s[0] + 256 * LeVal(s[1..])
  }

  lemma {:induction false} LeRoundTrip(v: nat, n: nat)
    requires v < Pow2(8 * n)
    ensures LeVal(Le(v, n)) == v
  {
    if n > 0 {
      Pow2Table();
      Pow2Add(8 * (n - 1), 8);
      LeRoundTrip(v / 256, n - 1);
      assert Le(v, n)[1..] == Le(v / 256, n - 1);
    }
  }

  lemma {:induction false} LeSmall(v: nat, n: nat, m: nat)
    requires v < Pow2(8 * m) && m <= n
    ensures forall k :: m <= k < n ==> Le(v, n)[k] == 0
  {
    if m == 0 {
      if n > 0 {
        LeSmall(0, n - 1, 0);
        assert forall k :: 1 <= k < n ==> Le(v, n)[k] == Le(0, n - 1)[k - 1];
      }
    } else {
      Pow2Table();
      Pow2Add(8 * (m - 1), 8);
      LeSmall(v / 256, n - 1, m - 1);
      assert forall k :: 1 <= k < n ==> Le(v, n)[k] == Le(v / 256, n - 1)[k - 1];
    }
  }
}

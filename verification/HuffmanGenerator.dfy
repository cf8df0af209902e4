/**
 gen/hpack_huf_dec.c: the decoding tables are built from the code list by two mutually recursive functions. A table takes a
 slot where the generator prints a name.
 */
module HuffmanGenerator {
  import opened Common
  import opened Bits
  import opened HuffmanCode
  import opened HuffmanTables
  import opened Canonical

  /**
   What the assertions of the generator ask of the list. The codes that go on after 1, 2 and 3 octets all start in the last
   ten places, so that they need at most ten more tables, and not all in the last one, so that they need at least two; and a
   table but the last one of its octet is not full, so that its 256th entry is never tried.
   */
  ghost predicate Shape(syms: seq<Sym>)
    requires Sized(syms)
  {
    forall i :: 0 <= i < 256 ==> Late(syms, i, 1) && Late(syms, i, 2) && Late(syms, i, 3)
  }

  /** The code `i`, if it goes on after `k` octets or fills the last of them. */
  ghost predicate Late(syms: seq<Sym>, i: nat, k: nat)
    requires Sized(syms) && i < 256 && 1 <= k <= 3
  {
    && (syms[i].len > 8 * k ==> Start(syms, i) + 10 * Pow2(32 - 8 * k) >= 0x1_0000_0000)
    && (k >= 2 && syms[i].len == 8 * k ==> Start(syms, i) + Pow2(40 - 8 * k) >= 0x1_0000_0000)
    && (syms[i].len <= 8 * k ==> Start(syms, i + 1) + 2 * Pow2(32 - 8 * k) <= 0x1_0000_0000)
  }

  /** Adding `w` bits to a path. */
  lemma AlignAt(path: bits, n: nat, w: nat)
    requires |path| + w <= 32 && n < Pow2(w)
    ensures Align(path + Of(n, w)) == Align(path) + n * Pow2(32 - |path| - w)
  {
    hide Pow2; hide Val; hide Of;
    ValOf(n, w);
    ValAppend(path, Of(n, w));
    Pow2Add(w, 32 - |path| - w);
    MulAdd(Val(path) * Pow2(w), n, Pow2(32 - |path| - w));
    MulAssoc(Val(path), Pow2(w), Pow2(32 - |path| - w));
  }

  lemma Pow2Of32()
    ensures Pow2(32) == 0x1_0000_0000 && Pow2(24) == 0x100_0000 && Pow2(16) == 0x1_0000 && Pow2(8) == 0x100 && Pow2(2) == 4 && Pow2(6) == 64
  {
    Pow2Table();
    Pow2Add(16, 16);
    Pow2Add(16, 8);
  }

  lemma AlignOnes(n: nat)
    requires n <= 32
    ensures Align(Ones(n)) + Pow2(32 - n) == 0x1_0000_0000
  {
    Pow2Of32();
    hide Pow2; hide Val; hide Ones;
    ValOnes(n);
    Pow2Add(n, 32 - n);
    MulAdd(Pow2(n), 1, Pow2(32 - n));
  }

  /** A multiple of `g` that is below another one is at least `g` below. */
  lemma Stride(a: nat, b: nat, g: nat)
    requires g > 0 && a * g < b * g
    ensures a + 1 <= b && a * g + g <= b * g
  {
    MulAdd(a, b, g);
    MulAdd(b, a, g);
    MulLe(a - b, g);
    MulLe(b - a, g);
  }

  predicate Multiple(x: nat, g: nat)
    requires g > 0
  {
    x % g == 0
  }

  lemma MultipleOf(a: nat, g: nat)
    requires g > 0
    ensures Multiple(a * g, g)
  {
    DivUnique(a, g, 0);
  }

  /** Both ends of a code, and a path, are multiples of what the longest code spans. */
  lemma CodeMultiple(s: Sym, l: nat)
    requires s.len <= l <= 32
    ensures Multiple(Msb(s), Pow2(32 - l)) && Multiple(Msb(s) + Span(s), Pow2(32 - l))
  {
    hide Pow2;
    Pow2Add(l - s.len, 32 - l);
    MulAssoc(s.cod, Pow2(l - s.len), Pow2(32 - l));
    MulAssoc(s.cod + 1, Pow2(l - s.len), Pow2(32 - l));
    MulAdd(s.cod, 1, Span(s));
    MultipleOf(s.cod * Pow2(l - s.len), Pow2(32 - l));
    MultipleOf((s.cod + 1) * Pow2(l - s.len), Pow2(32 - l));
  }

  lemma PathMultiple(path: bits, l: nat)
    requires |path| <= l <= 32
    ensures Multiple(Align(path), Pow2(32 - l))
  {
    hide Pow2; hide Val;
    Pow2Add(l - |path|, 32 - l);
    MulAssoc(Val(path), Pow2(l - |path|), Pow2(32 - l));
    MultipleOf(Val(path) * Pow2(l - |path|), Pow2(32 - l));
  }

  /** A place `n` after `x` that is before `y` ends before `y`. */
  lemma NextPlace(x: nat, n: nat, g: nat, y: nat)
    requires g > 0 && Multiple(x, g) && Multiple(y, g) && x + n * g < y
    ensures x + (n + 1) * g <= y
  {
    DivMod(x, g);
    DivMod(y, g);
    MulAdd(x / g, n, g);
    MulAdd(n, 1, g);
    Stride(x / g + n, y / g, g);
  }

  /** How many places there are. */
  lemma Places(n: nat, m: nat, g: nat)
    requires g > 0
    ensures n * g < m * g <==> n < m
    ensures n * g == m * g <==> n == m
  {
    MulAdd(m, n, g);
    MulAdd(n, m, g);
    MulLe(m - n, g);
    MulLe(n - m, g);
  }

  // ---- hits ----

  lemma {:induction false} OrComm(a: nat, b: nat)
    ensures Or(a, b) == Or(b, a)
  {
    if a > 0 || b > 0 { OrComm(a / 2, b / 2); }
  }

  /** The place of entry `n` in the table of `path`, which is indexed by `w` bits. */
  function Place(path: bits, w: nat, n: nat): nat
    requires |path| + w <= 32
  {
    Align(path) + n * Pow2(32 - |path| - w)
  }

  /** `(uint32_t)(n << (32 - msk_len)) | msk` */
  lemma PlaceIsOr(path: bits, w: nat, n: nat)
    requires |path| + w <= 32 && n < Pow2(w)
    ensures Or(n * Pow2(32 - |path| - w) % 0x1_0000_0000, Align(path)) == Place(path, w, n)
  {
    hide Pow2; hide Or; hide Val;
    var g := Pow2(32 - |path| - w);
    Pow2Of32();
    Pow2Mono(32 - |path|, 32);
    Pow2Add(w, 32 - |path| - w);
    Places(n, Pow2(w), g);
    OrComm(n * g, Align(path));
    OrDisjoint(Val(path), 32 - |path|, n * g);
  }

  lemma HitTest(s: Sym, path: bits, w: nat, n: nat)
    requires s.len <= |path| + w <= 32 && n < Pow2(w) && s.cod < Pow2(s.len)
    ensures CodeOf(s) <= path + Of(n, w) <==> Place(path, w, n) / Span(s) == s.cod
    ensures CodeOf(s) <= path + Of(n, w) <==> Msb(s) <= Place(path, w, n) < Msb(s) + Span(s)
  {
    AlignAt(path, n, w);
    PrefixIffShift(s, path + Of(n, w));
    PrefixIffInterval(s, path + Of(n, w));
    hide CodeOf; hide Of; hide Align; hide Pow2;
  }

  /** The code neither starts the path nor follows it. */
  predicate Outside(s: Sym, path: bits)
    requires s.len <= 32 && |path| <= 32
  {
    var a, b := Align(path), Align(path) + Pow2(32 - |path|);
    !(Msb(s) <= a < Msb(s) + Span(s)) && !(Msb(s) <= b < Msb(s) + Span(s))
  }

  lemma OrOne(v: nat, k: nat)
    ensures Or(Pow2(k), v * Pow2(k)) == v * Pow2(k) || Or(Pow2(k), v * Pow2(k)) == v * Pow2(k) + Pow2(k)
    decreases k
  {
    if k == 0 {
      OrComm(0, v / 2);
      OrZero(v / 2);
    } else {
      var p := Pow2(k - 1);
      assert v * Pow2(k) == 2 * (v * p) by { MulAssoc(v, 2, p); MulAssoc(2, v, p); }
      OrOne(v, k - 1);
    }
  }

  lemma HalfOf32(k: nat)
    requires k < 32
    ensures Pow2(k) < 0x1_0000_0000
  {
    Pow2Of32();
    Pow2Mono(k, 31);
    assert Pow2(32) == 2 * Pow2(31);
  }

  /** The entry past the last one. */
  lemma PastEnd(s: Sym, path: bits, w: nat)
    requires 0 < |path| && |path| + w <= 32 && s.len <= 32 && Outside(s, path)
    ensures Or(Pow2(w) * Pow2(32 - |path| - w) % 0x1_0000_0000, Align(path)) / Span(s) != s.cod
  {
    hide Pow2; hide Or; hide Val;
    var k := 32 - |path|;
    Pow2Add(w, k - w);
    HalfOf32(k);
    OrOne(Val(path), k);
    DivInterval(Align(path), Span(s), s.cod);
    DivInterval(Align(path) + Pow2(k), Span(s), s.cod);
  }

  /** Entry `n` is the one of a code, not shorter than `first` bits past the path. */
  ghost predicate HitEntry(syms: seq<Sym>, path: bits, w: nat, first: nat, n: nat, e: Oct) {
    e.nxt.None? && 0 < first <= e.len <= w && exists i :: 0 <= i < |syms| && Hit(e, syms[i], path, Of(n, w))
  }

  lemma PlaceGrows(path: bits, w: nat, n: nat)
    requires |path| + w <= 32
    ensures Place(path, w, n) < Place(path, w, n + 1)
  {
    hide Align;
    MulAdd(n, 1, Pow2(32 - |path| - w));
  }

  /** The next place is not past the end `y` of a code either. */
  lemma PlaceNext(path: bits, w: nat, n: nat, y: nat)
    requires |path| + w <= 32 && Multiple(y, Pow2(32 - |path| - w)) && Place(path, w, n) < y
    ensures Place(path, w, n + 1) <= y
  {
    PathMultiple(path, |path| + w);
    hide Align; hide Pow2; hide Multiple;
    NextPlace(Align(path), n, Pow2(32 - |path| - w), y);
  }

  lemma CodeFacts(syms: seq<Sym>, i: nat)
    requires WfSyms(syms) && i < 256
    ensures Sized(syms) && |syms| == 256 && 5 <= syms[i].len <= 30 && syms[i].cod < Pow2(syms[i].len)
    ensures Start(syms, i + 1) == Start(syms, i) + Span(syms[i])
  {
  }

  /** A longer code spans at most half. */
  lemma SpanBelow(s: Sym, l: nat)
    requires l < s.len <= 32
    ensures 2 * Span(s) <= Pow2(32 - l)
  {
    Pow2Mono(32 - s.len, 31 - l);
    assert Pow2(32 - l) == 2 * Pow2(31 - l);
  }

  predicate EntryOf(s: Sym, path: bits, e: Oct) {
    e.nxt.None? && e.len + |path| == s.len && e.chr == s.chr
  }

  // ---- misses ----

  /** `(i & (i - 1)) == 0` */
  predicate IsPow2(i: nat) {
    i <= 1 || (i % 2 == 0 && IsPow2(i / 2))
  }

  lemma {:induction false} BetweenPow2(i: nat, k: nat)
    requires Pow2(k) < i < Pow2(k + 1)
    ensures !IsPow2(i)
    decreases k
  {
    if k > 0 && i % 2 == 0 { BetweenPow2(i / 2, k - 1); }
  }

  /** dec_rndpow2, rounding up */
  method RndPow2(n: nat, ghost k: nat) returns (i: nat)
    requires Pow2(k) < n <= Pow2(k + 1)
    ensures i == Pow2(k + 1)
  {
    IsPow2Of(k + 1);
    i := n;
    while !IsPow2(i)
      invariant n <= i <= Pow2(k + 1)
      decreases Pow2(k + 1) - i
    {
      i := i + 1;
    }
    if i < Pow2(k + 1) { BetweenPow2(i, k); }
  }

  lemma {:induction false} IsPow2Of(k: nat)
    ensures IsPow2(Pow2(k))
  {
    if k > 0 { IsPow2Of(k - 1); }
  }

  /** The codes that share a path of whole octets, other than the one of EOS, fill all the space past it. */
  lemma GroupStep(syms: seq<Sym>, hph: nat, max: nat, path: bits)
    requires WfSyms(syms) && hph <= max < 256 && |path| < syms[hph].len && |path| <= 24 && Start(syms, hph) == Align(path)
    ensures syms[hph].len <= syms[max].len && Align(path) <= Start(syms, max)
    ensures Msb(syms[max]) / Pow2(32 - |path|) == Msb(syms[hph]) / Pow2(32 - |path|) <==> Start(syms, max) < Align(path) + Pow2(32 - |path|)
    ensures Start(syms, max) < Align(path) + Pow2(32 - |path|) ==> Start(syms, max + 1) <= Align(path) + Pow2(32 - |path|)
  {
    hide WfSyms; hide Pow2; hide Val;
    CodeFacts(syms, hph);
    CodeFacts(syms, max);
    if hph < max { StartOrder(syms, hph, max); }
    var g := Pow2(32 - |path|);
    DivInterval(Align(path), g, Val(path));
    DivInterval(Msb(syms[max]), g, Val(path));
    if Start(syms, max) < Align(path) + g { FillsUp(syms[max], path); }
  }

  lemma FillsUp(s: Sym, path: bits)
    requires |path| <= s.len <= 32 && Msb(s) < Align(path) + Pow2(32 - |path|)
    ensures Msb(s) + Span(s) <= Align(path) + Pow2(32 - |path|)
  {
    hide Pow2; hide Val;
    var k := Pow2(s.len - |path|);
    Pow2Add(s.len - |path|, 32 - s.len);
    MulAssoc(Val(path), k, Span(s));
    MulAdd(Val(path) * k, k, Span(s));
    Stride(s.cod, Val(path) * k + k, Span(s));
  }

  lemma ShapeAt(syms: seq<Sym>, i: nat, k: nat)
    requires Sized(syms) && Shape(syms) && i < 256 && 1 <= k <= 3
    ensures syms[i].len > 8 * k ==> Start(syms, i) + 10 * Pow2(32 - 8 * k) >= 0x1_0000_0000
    ensures k >= 2 && syms[i].len == 8 * k ==> Start(syms, i) + Pow2(40 - 8 * k) >= 0x1_0000_0000
    ensures syms[i].len <= 8 * k ==> Start(syms, i + 1) + 2 * Pow2(32 - 8 * k) <= 0x1_0000_0000
    ensures Pow2(40 - 8 * k) == 256 * Pow2(32 - 8 * k)
  {
    Pow2Table();
    Pow2Add(8, 32 - 8 * k);
    assert Late(syms, i, k);
  }

  /** ...and they are short enough for one more octet. */
  lemma GroupLength(syms: seq<Sym>, i: nat, oct: nat)
    requires WfSyms(syms) && Shape(syms) && i < 256 && 1 <= oct <= 3
    requires Start(syms, i) + Pow2(32 - 8 * oct) < 0x1_0000_0000
    ensures syms[i].len < 8 * oct + 8 && syms[i].len <= 30
  {
    hide Pow2; hide Start; hide WfSyms; hide Shape;
    CodeFacts(syms, i);
    if oct <= 2 { ShapeAt(syms, i, oct + 1); }
  }

  /** On the path of EOS. */
  lemma ChainLength(syms: seq<Sym>, i: nat, oct: nat)
    requires WfSyms(syms) && Shape(syms) && i < 256 && oct <= 3 && Start(syms, i) == Align(Ones(8 * oct))
    ensures syms[i].len <= 8 * oct + 8 && syms[i].len <= 30
  {
    hide Pow2; hide Start; hide WfSyms; hide Align; hide Shape;
    CodeFacts(syms, i);
    AlignOnes(8 * oct);
    if oct <= 2 { ShapeAt(syms, i, oct + 1); }
  }

  /** The places on the path of EOS. */
  lemma ChainSpace(oct: nat, n: nat)
    requires oct < 3
    ensures Align(Ones(8 * oct)) + 256 * Pow2(24 - 8 * oct) == 0x1_0000_0000 && Pow2(24 - 8 * oct) >= 256
    ensures Place(Ones(8 * oct), 8, n) == Align(Ones(8 * oct)) + n * Pow2(24 - 8 * oct)
  {
    AlignOnes(8 * oct);
    Pow2Table();
    Pow2Add(8, 24 - 8 * oct);
    Pow2Mono(8, 24 - 8 * oct);
    hide Align; hide Pow2;
  }

  lemma MiddleChain(syms: seq<Sym>, i: nat, oct: nat, n: nat)
    requires WfSyms(syms) && Shape(syms) && 0 < i <= 256 && oct < 3 && Place(Ones(8 * oct), 8, n) == Start(syms, i)
    requires syms[i - 1].len <= 8 * oct + 8 && (i < 256 ==> syms[i].len > 8 * oct + 8)
    ensures i < 256 && 246 <= n <= 254
  {
    ChainSpace(oct, n);
    hide WfSyms; hide Align; hide Shape; hide Pow2; hide Place;
    var at, g := Align(Ones(8 * oct)), Pow2(24 - 8 * oct);
    if i == 256 {
      NotEnd(at, n, g);
    } else {
      ShapeAt(syms, i, oct + 1);
      ShapeAt(syms, i - 1, oct + 1);
      hide Start;
      EntriesLeft(at, n, g);
    }
  }

  lemma LastChain(syms: seq<Sym>, i: nat, n: nat)
    requires WfSyms(syms) && 0 < i <= 256 && Place(Ones(24), 6, n) == Start(syms, i) && (i < 256 ==> syms[i].len > 30)
    ensures i == 256 && n == 63
  {
    if i < 256 { CodeFacts(syms, i); }
    hide WfSyms;
    AlignOnes(24);
    Pow2Of32();
    hide Align; hide Pow2;
  }

  /** How many entries are hits on the path of EOS: all but two to ten, and in the fourth octet all but EOS itself. */
  lemma ChainHits(syms: seq<Sym>, i: nat, oct: nat, n: nat)
    requires WfSyms(syms) && Shape(syms) && 0 < i <= 256 && oct <= 3 && n <= 256
    requires var w := if oct == 3 then 6 else 8;
             && Place(Ones(8 * oct), w, n) == Start(syms, i) && (i < 256 ==> syms[i].len > 8 * oct + w)
             && syms[i - 1].len <= 8 * oct + w
    ensures if oct == 3 then i == 256 && n == 63 else i < 256 && 246 <= n <= 254
  {
    hide WfSyms; hide Shape; hide Place; hide Start;
    if oct == 3 { LastChain(syms, i, n); } else { MiddleChain(syms, i, oct, n); }
  }

  lemma NotEnd(at: nat, n: nat, g: nat)
    requires g >= 256 && at + 256 * g == 0x1_0000_0000
    ensures at + n * g != END
  {
    MulAdd(256, n, g);
    MulLe(256 - n, g);
  }

  lemma MulSame(a: nat, b: nat, c: nat)
    requires a == b
    ensures a * c == b * c
  {
  }

  lemma EntriesLeft(at: nat, n: nat, g: nat)
    requires g > 0 && at + 256 * g == 0x1_0000_0000 && at + n * g + 10 * g >= 0x1_0000_0000 && at + n * g + 2 * g <= 0x1_0000_0000
    ensures 246 <= n <= 254
  {
    MulAdd(n, 10, g);
    MulAdd(n, 2, g);
    MulAdd(256, n + 10, g);
    MulAdd(n + 2, 256, g);
    MulLe(256 - (n + 10), g);
    MulLe(n + 2 - 256, g);
  }

  // ---- names ----

  /** dec_bits */
  function BitLength(n: nat): nat {
    if n == 0 then 0 else 1 + BitLength(n / 2)
  }

  /** How many digits dec_pfxcat prints for `n` of them: the next power of two. */
  function Digits(n: nat): nat {
    if n <= 1 then 1 else if n <= 2 then 2 else 4
  }

  /** The digits in the name of the table `k` among the `sub` ones that a table links to. */
  function NameDigits(sub: nat, k: nat): bits
    requires 2 <= sub <= 10 && k < sub
  {
    var b := BitLength(sub);
    BitLengths(sub);
    Of(Pow2(b) - sub + k, Digits(b - 1))
  }

  lemma BitLengths(n: nat)
    requires 2 <= n <= 10
    ensures BitLength(n) == if n < 4 then 2 else if n < 8 then 3 else 4
    ensures Pow2(2) == 4 && Pow2(3) == 8 && Pow2(4) == 16
  {
    assert BitLength(1) == 1 && BitLength(2) == 2 && BitLength(3) == 2 && BitLength(4) == 3 && BitLength(5) == 3;
  }

  lemma DigitsAgree(v: nat, w: nat, n: nat)
    requires n in {1, 2, 4}
    ensures Of(v, n) == Of(w, n) <==> v % Spread(n) == w % Spread(n)
  {
    hide Of;
    LastDigit(v, w, n);
    LastDigit(v / 2, w / 2, n - 1);
    Halves(v);
    Halves(w);
    if n == 4 {
      LastDigit(v / 4, w / 4, 2);
      LastDigit(v / 8, w / 8, 1);
      assert v / 2 / 2 == v / 4 && v / 4 / 2 == v / 8 && w / 2 / 2 == w / 4 && w / 4 / 2 == w / 8;
    }
  }

  /** How many names `n` digits spell. */
  function Spread(n: nat): nat {
    if n == 1 then 2 else if n == 2 then 4 else 16
  }

  lemma Halves(v: nat)
    ensures v % 4 == 2 * (v / 2 % 2) + v % 2
    ensures v % 16 == 8 * (v / 8 % 2) + 4 * (v / 4 % 2) + 2 * (v / 2 % 2) + v % 2
  {
    assert v / 2 / 2 == v / 4 && v / 4 / 2 == v / 8 && v / 8 / 2 == v / 16;
  }

  lemma LastDigit(v: nat, w: nat, n: nat)
    ensures n > 0 ==> (Of(v, n) == Of(w, n) <==> v % 2 == w % 2 && Of(v / 2, n - 1) == Of(w / 2, n - 1))
    ensures n == 0 ==> Of(v, n) == Of(w, n)
  {
    hide Pow2;
    if n > 0 {
      var a, b := Of(v / 2, n - 1), Of(w / 2, n - 1);
      assert Of(v, n)[..n - 1] == a && Of(w, n)[..n - 1] == b;
      assert Of(v, n)[n - 1] == (v % 2 == 1) && Of(w, n)[n - 1] == (w % 2 == 1);
    }
  }

  /** The names of the tables that one table links to are distinct exactly for these numbers of tables. */
  lemma NamesDistinct(sub: nat)
    requires 2 <= sub <= 10
    ensures (forall j, k :: 0 <= j < k < sub ==> NameDigits(sub, j) != NameDigits(sub, k)) <==> sub !in {3, 5, 6, 7}
  {
    hide NameDigits;
    forall j, k | 0 <= j < k < sub
      ensures NameDigits(sub, j) != NameDigits(sub, k) || sub in {3, 5, 6, 7}
    {
      NamesAgree(sub, j, k);
      if sub == 2 {
      } else if sub == 4 {
        assert (4 + j) % 4 == j && (4 + k) % 4 == k;
      } else if sub >= 8 {
        assert (16 - sub + j) % 16 == 16 - sub + j && (16 - sub + k) % 16 == 16 - sub + k;
      }
    }
    if sub in {3, 5, 6, 7} {
      var k := if sub == 3 then 2 else 4;
      NamesAgree(sub, 0, k);
      assert NameDigits(sub, 0) == NameDigits(sub, k);
    }
  }

  lemma NamesAgree(sub: nat, j: nat, k: nat)
    requires 2 <= sub <= 10 && j < sub && k < sub
    ensures NameDigits(sub, j) == NameDigits(sub, k) <==>
              if sub < 4 then (4 - sub + j) % 2 == (4 - sub + k) % 2
              else if sub < 8 then (8 - sub + j) % 4 == (8 - sub + k) % 4
              else (16 - sub + j) % 16 == (16 - sub + k) % 16
  {
    hide Of; hide Pow2; hide BitLength;
    BitLengths(sub);
    var b := BitLength(sub);
    var v := Pow2(b) - sub;
    DigitsAgree(v + j, v + k, Digits(b - 1));
  }

  // ---- tables ----

  /** Entry `m` links to the table of the next path, or is the one of EOS. */
  ghost predicate MissEntry(paths: seq<bits>, path: bits, w: nat, m: nat, e: Oct) {
    match e.nxt
    case Some(u) => e.len == 8 == w && u < |paths| && paths[u] == path + Of(m, w)
    case None => e.len == 0 && path + Of(m, w) == Eos()
  }

  ghost predicate TableOk(c: Code, ts: Tables, t: nat) {
    Shaped(ts, t) && WfTable(c, ts, t)
  }

  /** A table stays sound when others are added. */
  lemma TableKept(c: Code, ts: Tables, ts': Tables, t: nat)
    requires TableOk(c, ts, t) && |ts'.tabs| == |ts'.paths| >= |ts.tabs| && ts.paths <= ts'.paths && ts'.tabs[t] == ts.tabs[t]
    ensures TableOk(c, ts', t)
  {
    hide CodeOf; hide Of; hide Hit; hide Pow2; hide Eos;
    forall n | 0 <= n < |ts.tabs[t].oct|
      ensures WfEntry(c, ts', t, Of(n, ts.tabs[t].len), ts.tabs[t].oct[n])
    {
      assert WfEntry(c, ts, t, Of(n, ts.tabs[t].len), ts.tabs[t].oct[n]);
    }
  }

  /** No code stops where the codes after a path start. */
  lemma NoCodeEnds(syms: seq<Sym>, hph: nat, path: bits, i: nat)
    requires WfSyms(syms) && hph < 256 && i < 256 && |path| <= 32 && |path| < syms[hph].len && Start(syms, hph) == Align(path)
    ensures !(CodeOf(syms[i]) <= path)
  {
    hide WfSyms; hide CodeOf; hide Align; hide Pow2;
    CodeFacts(syms, i);
    CodeFacts(syms, hph);
    if CodeOf(syms[i]) <= path {
      PrefixIffInterval(syms[i], path);
      OnlyOne(syms, i, hph, Align(path));
    }
  }

  /** The entries of the table of `path`: `n` hits from the code `hph` on, then misses. */
  ghost predicate Filled(syms: seq<Sym>, paths: seq<bits>, path: bits, tab: Table, hph: nat, n: nat)
    requires WfSyms(syms)
  {
    && hph < 256 && |path| <= 24 && |path| % 8 == 0 && 1 <= tab.len <= 8 && |tab.oct| == Pow2(tab.len) && 0 < n <= |tab.oct|
    && Start(syms, hph) == Align(path) && |path| < syms[hph].len <= |path| + tab.len && tab.oct[0].len + |path| == syms[hph].len
    && (forall m :: 0 <= m < n ==> HitEntry(syms, path, tab.len, syms[hph].len - |path|, m, tab.oct[m]))
    && (forall m :: n <= m < |tab.oct| ==> MissEntry(paths, path, tab.len, m, tab.oct[m]))
  }

  /** A table whose entries are all hits, links or EOS is sound. */
  lemma TableMade(c: Code, ts: Tables, t: nat, hph: nat, n: nat)
    requires WfSyms(c.syms) && |ts.tabs| == |ts.paths| && t < |ts.tabs| && Filled(c.syms, ts.paths, ts.paths[t], ts.tabs[t], hph, n)
    ensures TableOk(c, ts, t)
  {
    hide CodeOf; hide Of; hide Hit; hide Pow2; hide Eos; hide WfSyms; hide Align; hide Start;
    var path, tab := ts.paths[t], ts.tabs[t];
    CodeFacts(c.syms, hph);
    forall i | 0 <= i < |c.syms|
      ensures !(CodeOf(c.syms[i]) <= path)
    {
      NoCodeEnds(c.syms, hph, path, i);
    }
    forall m | 0 <= m < |tab.oct|
      ensures WfEntry(c, ts, t, Of(m, tab.len), tab.oct[m])
    {
      if m < n {
        assert HitEntry(c.syms, path, tab.len, c.syms[hph].len - |path|, m, tab.oct[m]);
      } else {
        assert MissEntry(ts.paths, path, tab.len, m, tab.oct[m]);
      }
    }
  }

  /** The tables from `from` on stay sound when others are added. */
  lemma AllKept(c: Code, ts: Tables, ts': Tables, from: nat)
    requires |ts.tabs| == |ts.paths| <= |ts'.tabs| == |ts'.paths| && ts.paths <= ts'.paths
    requires forall t :: from <= t < |ts.tabs| ==> TableOk(c, ts, t) && ts'.tabs[t] == ts.tabs[t]
    ensures forall t :: from <= t < |ts.tabs| ==> TableOk(c, ts', t)
  {
    forall t | from <= t < |ts.tabs|
      ensures TableOk(c, ts', t)
    {
      TableKept(c, ts, ts', t);
    }
  }

  lemma MissesKept(was: seq<bits>, paths: seq<bits>, path: bits, w: nat, from: nat, to: nat, oct: seq<Oct>)
    requires was <= paths && from <= to <= |oct| && forall m :: from <= m < to ==> MissEntry(was, path, w, m, oct[m])
    ensures forall m :: from <= m < to ==> MissEntry(paths, path, w, m, oct[m])
  {
    hide Of; hide Eos;
  }

  /** The length of a hit is the one of the code that spans its place. */
  lemma HitLength(syms: seq<Sym>, path: bits, w: nat, first: nat, m: nat, e: Oct, k: nat)
    requires WfSyms(syms) && k < 256 && |path| + w <= 32 && m < Pow2(w) && HitEntry(syms, path, w, first, m, e)
    requires Start(syms, k) <= Place(path, w, m) < Start(syms, k) + Span(syms[k])
    ensures e.len + |path| == syms[k].len
  {
    hide CodeOf; hide Of; hide WfSyms; hide Pow2; hide Align; hide Place;
    CodeFacts(syms, k);
    var i :| 0 <= i < |syms| && Hit(e, syms[i], path, Of(m, w));
    CodeFacts(syms, i);
    HitTest(syms[i], path, w, m);
    OnlyOne(syms, i, k, Place(path, w, m));
  }

  lemma MultipleOf8(x: nat, l: nat)
    requires l <= 29 && Multiple(x, Pow2(32 - l))
    ensures x % 8 == 0
  {
    hide Pow2;
    Pow2Add(29 - l, 3);
    Pow2Table();
    DivMod(x, Pow2(32 - l));
    MulAssoc(x / Pow2(32 - l), Pow2(29 - l), 8);
    MultipleOf(x / Pow2(32 - l) * Pow2(29 - l), 8);
    hide Multiple;
  }

  /** The last code has 30 bits, as EOS. */
  lemma LastIs30(syms: seq<Sym>)
    requires WfSyms(syms)
    ensures syms[255].len == 30 && Start(syms, 255) == END - 4
  {
    hide WfSyms;
    CodeFacts(syms, 255);
    var l := syms[255].len;
    CodeMultiple(syms[255], l);
    Pow2Of32();
    hide Pow2;
    if l <= 29 { MultipleOf8(END, l); }
  }

  class Generator {
    const code: Code
    var tabs: seq<Table>
    ghost var paths: seq<bits>

    constructor (code: Code)
      ensures this.code == code && tabs == [] && paths == []
    {
      this.code := code;
      tabs, paths := [], [];
    }

    /** dec_make_hit. The entry past the last one of a table may be tried, and is not a hit. */
    method MakeHit(s: Sym, dec: array<Oct>, n: nat, msk: nat, mskLen: nat, oct: nat, ghost path: bits) returns (hit: bool)
      requires dec.Length == 256 && n < 256 && |path| == 8 * oct < s.len <= mskLen <= 32 && msk == Align(path) && s.cod < Pow2(s.len)
      requires var w := mskLen - 8 * oct; n < Pow2(w) || (n == Pow2(w) && oct > 0 && Outside(s, path))
      modifies dec
      ensures hit <==> n < Pow2(mskLen - 8 * oct) && CodeOf(s) <= path + Of(n, mskLen - 8 * oct)
      ensures dec[..] == if hit then old(dec[..])[n := Oct(s.len - 8 * oct, s.chr, None)] else old(dec[..])
    {
      ghost var w := mskLen - 8 * oct;
      if n < Pow2(w) {
        PlaceIsOr(path, w, n);
        HitTest(s, path, w, n);
      } else {
        PastEnd(s, path, w);
      }
      hide CodeOf; hide Of; hide Or; hide Place;
      var msb := Or(n * Pow2(32 - mskLen) % 0x1_0000_0000, msk);
      if !(msb / Pow2(32 - s.len) == s.cod) { return false; }
      dec[n] := Oct(s.len - 8 * oct, s.chr, None);
      return true;
    }

    /** What calls of dec_generate have in common: the codes from `hph` on go on after `path`. */
    ghost predicate Starts(hph: nat, max: nat, mskLen: nat, oct: nat, path: bits) {
      && WfSyms(code.syms) && hph < max <= 256
      && oct <= 3 && |path| == 8 * oct < code.syms[hph].len <= mskLen <= 8 * oct + 8 && mskLen <= 30
      && Start(code.syms, hph) == Align(path)
      && if Start(code.syms, max) == Align(path) + Pow2(32 - 8 * oct) then oct > 0 && mskLen < 8 * oct + 8
         else Start(code.syms, max) < Align(path) + Pow2(32 - 8 * oct)
    }

    /** The state of the first loop: the entries before `n` are those of codes up to `i`. */
    ghost predicate Scanning(hph: nat, max: nat, w: nat, path: bits, i: nat, n: nat)
      requires Starts(hph, max, |path| + w, |path| / 8, path)
    {
      var p := Place(path, w, n);
      && hph <= i <= max && n <= Pow2(w) && (n == 0 ==> i == hph)
      && Start(code.syms, i) <= p
      && if i < max && code.syms[i].len <= |path| + w then p <= Start(code.syms, i + 1) else p == Start(code.syms, i)
    }

    lemma ScanStart(hph: nat, max: nat, w: nat, path: bits)
      requires Starts(hph, max, |path| + w, |path| / 8, path)
      ensures Scanning(hph, max, w, path, hph, 0)
    {
      StartOrder(code.syms, hph, max);
      hide WfSyms; hide Pow2;
    }

    /** What is known when the code `i` is tried. */
    lemma ScanFacts(hph: nat, max: nat, w: nat, path: bits, i: nat, n: nat)
      requires Starts(hph, max, |path| + w, |path| / 8, path) && Scanning(hph, max, w, path, i, n)
      requires i < max && code.syms[i].len <= |path| + w
      ensures |path| / 8 * 8 < code.syms[i].len && code.syms[i].cod < Pow2(code.syms[i].len) && 0 < w <= 8
      ensures Start(code.syms, i) + Span(code.syms[i]) == Start(code.syms, i + 1) <= Start(code.syms, max)
      ensures i > hph ==> Align(path) < Start(code.syms, i)
      ensures Pow2(w) * Pow2(32 - |path| - w) == Pow2(32 - |path|) > Span(code.syms[i])
    {
      hide WfSyms; hide Pow2;
      var syms := code.syms;
      CodeFacts(syms, hph);
      CodeFacts(syms, i);
      if hph < i { StartOrder(syms, hph, i); }
      if i + 1 < max { StartOrder(syms, i + 1, max); }
      Pow2Add(w, 32 - |path| - w);
      SpanBelow(syms[i], |path|);
    }

    /** The entry `n` may be tried... */
    lemma ScanTry(hph: nat, max: nat, w: nat, path: bits, i: nat, n: nat)
      requires Starts(hph, max, |path| + w, |path| / 8, path) && Scanning(hph, max, w, path, i, n)
      requires i < max && code.syms[i].len <= |path| + w
      ensures n < 256 && (n < Pow2(w) || (n == Pow2(w) && |path| > 0 && Outside(code.syms[i], path)))
    {
      ScanFacts(hph, max, w, path, i, n);
      Pow2Table();
      Pow2Mono(w, 8);
      if w < 8 { Pow2Mono(w, 7); }
      hide WfSyms; hide Pow2;
      if n == Pow2(w) && i == hph {
        assert false;
      }
    }

    lemma ScanHit(hph: nat, max: nat, w: nat, path: bits, i: nat, n: nat)
      requires Starts(hph, max, |path| + w, |path| / 8, path) && Scanning(hph, max, w, path, i, n)
      requires i < max && code.syms[i].len <= |path| + w && n < Pow2(w) && Place(path, w, n) < Start(code.syms, i + 1)
      ensures Scanning(hph, max, w, path, i, n + 1)
    {
      hide WfSyms; hide Pow2; hide Place; hide Sized;
      ScanFacts(hph, max, w, path, i, n);
      CodeFacts(code.syms, i);
      CodeMultiple(code.syms[i], |path| + w);
      PlaceGrows(path, w, n);
      PlaceNext(path, w, n, Start(code.syms, i + 1));
    }

    lemma ScanMiss(hph: nat, max: nat, w: nat, path: bits, i: nat, n: nat)
      requires Starts(hph, max, |path| + w, |path| / 8, path) && Scanning(hph, max, w, path, i, n)
      requires i < max && code.syms[i].len <= |path| + w && Place(path, w, n) >= Start(code.syms, i + 1)
      ensures n > 0 && Scanning(hph, max, w, path, i + 1, n)
    {
      hide WfSyms; hide Pow2; hide Align;
      CodeFacts(code.syms, i);
      if i + 1 < max { CodeFacts(code.syms, i + 1); }
      ScanFacts(hph, max, w, path, i, n);
    }

    /** ...and then the next entry or the next code is. */
    lemma ScanStep(hph: nat, max: nat, w: nat, path: bits, i: nat, n: nat)
      requires Starts(hph, max, |path| + w, |path| / 8, path) && Scanning(hph, max, w, path, i, n)
      requires i < max && code.syms[i].len <= |path| + w
      ensures if n < Pow2(w) && CodeOf(code.syms[i]) <= path + Of(n, w) then Scanning(hph, max, w, path, i, n + 1)
              else n > 0 && Scanning(hph, max, w, path, i + 1, n)
    {
      hide WfSyms; hide Pow2; hide CodeOf; hide Of; hide Align; hide Place;
      ScanFacts(hph, max, w, path, i, n);
      ScanBelow(hph, max, w, path, i, n);
      if n < Pow2(w) {
        HitTest(code.syms[i], path, w, n);
        if Place(path, w, n) < Start(code.syms, i + 1) { ScanHit(hph, max, w, path, i, n); }
      }
      if Place(path, w, n) >= Start(code.syms, i + 1) { ScanMiss(hph, max, w, path, i, n); }
    }

    lemma ScanBelow(hph: nat, max: nat, w: nat, path: bits, i: nat, n: nat)
      requires Starts(hph, max, |path| + w, |path| / 8, path) && Scanning(hph, max, w, path, i, n)
      requires i < max && code.syms[i].len <= |path| + w
      ensures Sized(code.syms) && Start(code.syms, i) <= Place(path, w, n) <= Start(code.syms, i + 1) <= Start(code.syms, max)
      ensures n == Pow2(w) ==> Place(path, w, n) == Start(code.syms, i + 1)
    {
      ScanFacts(hph, max, w, path, i, n);
      hide Pow2; hide Align; hide WfSyms;
      if n == Pow2(w) { MulSame(n, Pow2(w), Pow2(32 - |path| - w)); }
    }

    lemma ScanEnd(hph: nat, max: nat, w: nat, path: bits, i: nat, n: nat)
      requires Starts(hph, max, |path| + w, |path| / 8, path) && Scanning(hph, max, w, path, i, n)
      requires i == max || code.syms[i].len > |path| + w
      ensures hph < i && 0 < n && Place(path, w, n) == Start(code.syms, i)
    {
      hide WfSyms; hide Pow2;
    }

    /** The entries before `n` are those of codes. */
    ghost predicate AllHits(hph: nat, w: nat, path: bits, n: nat, oct: seq<Oct>)
      requires hph < |code.syms|
    {
      && n <= |oct| && (n > 0 ==> oct[0].len + |path| == code.syms[hph].len)
      && code.syms[hph].len > |path|
      && forall m :: 0 <= m < n ==> HitEntry(code.syms, path, w, code.syms[hph].len - |path|, m, oct[m])
    }

    lemma MoreHits(hph: nat, max: nat, w: nat, path: bits, i: nat, n: nat, oct: seq<Oct>, e: Oct)
      requires Starts(hph, max, |path| + w, |path| / 8, path) && Scanning(hph, max, w, path, i, n) && AllHits(hph, w, path, n, oct)
      requires i < max && code.syms[i].len <= |path| + w && n < Pow2(w) && n < |oct|
      requires CodeOf(code.syms[i]) <= path + Of(n, w) && EntryOf(code.syms[i], path, e)
      ensures AllHits(hph, w, path, n + 1, oct[n := e])
    {
      hide CodeOf; hide Of; hide Pow2; hide Align; hide WfSyms; hide Start; hide Place; hide Sized;
      CodeFacts(code.syms, hph);
      if hph < i { StartOrder(code.syms, hph, i); }
      assert Hit(e, code.syms[i], path, Of(n, w));
    }

    /** The body of the first loop of dec_generate. */
    method TryHit(hph: nat, max: nat, dec: array<Oct>, msk: nat, mskLen: nat, oct: nat, ghost path: bits, i: nat, n: nat)
      returns (hit: bool)
      requires dec.Length == 256 && Starts(hph, max, mskLen, oct, path) && msk == Align(path)
      requires Scanning(hph, max, mskLen - 8 * oct, path, i, n) && AllHits(hph, mskLen - 8 * oct, path, n, dec[..])
      requires i < max && code.syms[i].len <= mskLen
      modifies dec
      ensures n < 256
      ensures var w := mskLen - 8 * oct;
              if hit then Scanning(hph, max, w, path, i, n + 1) && AllHits(hph, w, path, n + 1, dec[..])
              else Scanning(hph, max, w, path, i + 1, n) && AllHits(hph, w, path, n, dec[..])
    {
      hide WfSyms; hide Pow2; hide CodeOf; hide Of; hide HitEntry; hide Align; hide Scanning; hide Place; hide Outside;
      hide AllHits;
      ghost var w := mskLen - 8 * oct;
      CodeFacts(code.syms, i);
      ScanTry(hph, max, w, path, i, n);
      ScanFacts(hph, max, w, path, i, n);
      ScanStep(hph, max, w, path, i, n);
      ghost var was := dec[..];
      hit := MakeHit(code.syms[i], dec, n, msk, mskLen, oct, path);
      if hit { MoreHits(hph, max, w, path, i, n, was, dec[n]); }
    }

    /** The first loop of dec_generate: the entries of the codes that end in this table. */
    method MakeHits(hph: nat, max: nat, dec: array<Oct>, msk: nat, mskLen: nat, oct: nat, ghost path: bits) returns (i: nat, n: nat)
      requires dec.Length == 256 && Starts(hph, max, mskLen, oct, path) && msk == Align(path)
      modifies dec
      ensures hph < i <= max && 0 < n <= Pow2(mskLen - 8 * oct) && n <= 256
      ensures code.syms[i - 1].len <= mskLen && (i < max ==> code.syms[i].len > mskLen)
      ensures Place(path, mskLen - 8 * oct, n) == Start(code.syms, i) && AllHits(hph, mskLen - 8 * oct, path, n, dec[..])
    {
      ghost var w := mskLen - 8 * oct;
      CodeFacts(code.syms, hph);
      hide WfSyms; hide Pow2; hide CodeOf; hide Of; hide HitEntry; hide Align; hide Scanning; hide Place; hide AllHits;
      i, n := hph, 0;
      ScanStart(hph, max, w, path);
      while i < max && code.syms[i].len <= mskLen
        invariant hph <= i <= max && (hph < i ==> code.syms[i - 1].len <= mskLen)
        invariant n <= 256 && Scanning(hph, max, w, path, i, n) && AllHits(hph, w, path, n, dec[..])
        decreases max - i, 256 - n
      {
        var hit := TryHit(hph, max, dec, msk, mskLen, oct, path, i, n);
        if !hit {
          i := i + 1;
        } else {
          n := n + 1;
        }
      }
      ScanEnd(hph, max, w, path, i, n);
    }

    // ---- the recursion ----

    ghost function Ts(): Tables
      reads this
    {
      Tables(tabs, paths)
    }

    /** The tables from slot `u` on are complete. */
    ghost predicate Made(u: nat)
      reads this
    {
      |tabs| == |paths| && forall t :: u <= t < |tabs| ==> TableOk(code, Ts(), t)
    }

    /** The codes of a path of whole octets, in dec_make_misses: `mskLen` is the length of the longest. */
    method FindGroup(hph: nat, oct: nat, ghost path: bits) returns (max: nat, mskLen: nat)
      requires WfSyms(code.syms) && Shape(code.syms) && hph < 256 && 1 <= oct <= 3 && |path| == 8 * oct < code.syms[hph].len
      requires Start(code.syms, hph) == Align(path) && 0 < Align(path) && Align(path) + 2 * Pow2(32 - 8 * oct) <= 0x1_0000_0000
      ensures Starts(hph, max, mskLen, oct, path) && max < 256
      ensures Start(code.syms, max) == Align(path) + Pow2(32 - 8 * oct) && mskLen == code.syms[max - 1].len
    {
      hide Pow2; hide WfSyms; hide Align; hide Shape;
      var g := Pow2(32 - 8 * oct);
      max, mskLen := hph, 8 * oct;
      CodeFacts(code.syms, hph);
      Pow2Table();
      Pow2Mono(8, 32 - 8 * oct);
      PathMultiple(path, 8 * oct);
      while (if max < 256 then Msb(code.syms[max]) else 0) / g == Msb(code.syms[hph]) / g
        invariant hph <= max <= 256 && Start(code.syms, max) <= Align(path) + g
        invariant max > hph ==> mskLen == code.syms[max - 1].len && Start(code.syms, max - 1) < Align(path) + g
        decreases 256 - max
      {
        GroupStep(code.syms, hph, max, path);
        mskLen := code.syms[max].len;
        max := max + 1;
      }
      GroupStep(code.syms, hph, hph, path);
      if max < 256 { GroupStep(code.syms, hph, max, path); }
      GroupLength(code.syms, max - 1, oct);
      if hph < max - 1 { StartOrder(code.syms, hph, max - 1); }
    }

    /** What adding tables keeps of the ones before. */
    twostate predicate Grown()
      reads this
    {
      |old(tabs)| <= |tabs| && old(tabs) <= tabs && old(paths) <= paths
    }

    /** The state of dec_make_misses: the codes from `hph` on belong to the entries from `n` on. */
    ghost predicate Missing(hph: nat, n: nat, oct: nat, path: bits)
    {
      && WfSyms(code.syms) && Shape(code.syms) && 1 <= oct <= 3 && path == Ones(8 * oct - 8) && 246 <= n <= 256
      && (n < 256 ==> hph < 256 && 8 * oct < code.syms[hph].len && Start(code.syms, hph) == Place(path, 8, n))
    }

    /** The path of an entry that misses. */
    lemma MissPath(hph: nat, n: nat, oct: nat, path: bits)
      requires Missing(hph, n, oct, path) && n < 256
      ensures var p := path + Of(n, 8); |p| == 8 * oct && Start(code.syms, hph) == Align(p) && 0 < Align(p)
      ensures n == 255 ==> path + Of(n, 8) == Ones(8 * oct)
      ensures n < 255 ==> Align(path + Of(n, 8)) + 2 * Pow2(32 - 8 * oct) <= 0x1_0000_0000
      ensures Align(path + Of(n, 8)) + Pow2(32 - 8 * oct) == Place(path, 8, n + 1)
    {
      hide Pow2; hide Align; hide WfSyms; hide Shape; hide Of;
      Pow2Table();
      AlignAt(path, n, 8);
      AlignOnes(8 * oct - 8);
      Pow2Add(8, 32 - 8 * oct);
      OnesOctet(8 * oct - 8);
      MulAdd(n, 1, Pow2(32 - 8 * oct));
      MulAdd(256 - n, 2, Pow2(32 - 8 * oct));
      MulAdd(256, n, Pow2(32 - 8 * oct));
      MulLe(256 - n - 2, Pow2(32 - 8 * oct));
      MulLe(n, Pow2(32 - 8 * oct));
    }

    /** The table of EOS in the next octet. */
    lemma ChainStart(hph: nat, oct: nat)
      requires WfSyms(code.syms) && Shape(code.syms) && oct <= 3 && hph < 256 && 8 * oct < code.syms[hph].len
      requires Start(code.syms, hph) == Align(Ones(8 * oct))
      ensures Starts(hph, 256, if oct == 3 then 30 else 8 * oct + 8, oct, Ones(8 * oct))
    {
      ChainLength(code.syms, hph, oct);
      AlignOnes(8 * oct);
      hide Pow2; hide Align; hide WfSyms; hide Shape;
    }

    /** The pointers and the mask that dec_generate is called with. */
    ghost predicate Called(hph: nat, max: nat, msk: nat, mskLen: nat, oct: nat, path: bits) {
      && Starts(hph, max, mskLen, oct, path) && Shape(code.syms) && msk == Align(path)
      && if max == 256 then path == Ones(8 * oct) && mskLen == (if oct == 3 then 30 else 8 * oct + 8)
         else Start(code.syms, max) == Align(path) + Pow2(32 - 8 * oct) && mskLen == code.syms[max - 1].len
    }

    /** An entry that misses, and the tables it needs: the body of the loop of dec_make_misses. */
    method MakeMiss(hph: nat, n: nat, oct: nat, ghost path: bits) returns (e: Oct, max: nat)
      requires Missing(hph, n, oct, path) && n < 256 && Made(|tabs|)
      modifies this
      ensures Grown() && Made(|old(tabs)|)
      ensures MissEntry(paths, path, 8, n, e) && Missing(max, n + 1, oct, path)
      decreases 9 - 2 * oct, 0
    {
      hide Pow2; hide Align; hide WfSyms; hide Shape; hide Of; hide Place; hide Made;
      MissPath(hph, n, oct, path);
      CodeFacts(code.syms, hph);
      var mskLen, msk;
      ghost var p := path + Of(n, 8);
      if n == 0xff {
        mskLen := 8 * (oct + 1);
        msk := 0xffff_ffff * Pow2(40 - mskLen) % 0x1_0000_0000;
        max := 256;
        if mskLen > 30 { mskLen := 30; }
        ChainStart(hph, oct);
        MaskIs(oct);
      } else {
        max, mskLen := FindGroup(hph, oct, p);
        CodeFacts(code.syms, max);
        if hph < max { StartOrder(code.syms, hph, max); }
        msk := Msb(code.syms[hph]);
      }
      var u := Generate(hph, max, msk, mskLen, oct, p);
      e := Oct(8, 0, Some(u));
    }

    /** dec_make_misses; `oct` is the one of the tables to come. */
    method MakeMisses(hph: nat, dec: array<Oct>, n0: nat, oct: nat, ghost path: bits) returns (sz: nat)
      requires dec.Length == 256 && 1 <= oct <= 4 && Made(|tabs|) && path == Ones(8 * oct - 8)
      requires if oct == 4 then n0 == 63 else n0 <= 254 && Missing(hph, n0, oct, path)
      modifies this, dec
      ensures Grown() && Made(|old(tabs)|)
      ensures sz == (if oct == 4 then 64 else 256) && dec[..n0] == old(dec[..n0])
      ensures forall m :: n0 <= m < sz ==> MissEntry(paths, path, if oct == 4 then 6 else 8, m, dec[m])
      decreases 9 - 2 * oct, 1
    {
      hide WfTable; hide Start; hide Late; hide Sized; hide TableOk; hide Shaped;
      Pow2Of32();
      Pow2Table();
      assert Pow2(7) < n0 <= Pow2(8) || Pow2(5) < n0 <= Pow2(6);
      hide Pow2; hide WfSyms; hide Shape; hide Of;
      sz := RndPow2(n0, if oct == 4 then 5 else 7);
      var n, i := n0, hph;
      if oct == 4 {
        dec[n] := Oct(0, 0, None);
        EosPath();
        return;
      }
      while n < sz
        invariant n0 <= n <= sz == 256 && Missing(i, n, oct, path) && Grown() && Made(|old(tabs)|)
        invariant dec[..n0] == old(dec[..n0])
        invariant forall m :: n0 <= m < n ==> MissEntry(paths, path, 8, m, dec[m])
      {
        ghost var ts, entries := Ts(), dec[..];
        var e;
        e, i := MakeMiss(i, n, oct, path);
        AllKept(code, ts, Ts(), |old(tabs)|);
        MissesKept(ts.paths, paths, path, 8, n0, n, entries);
        dec[n] := e;
        n := n + 1;
      }
    }

    /** What dec_generate has made of a table whose codes are not those of EOS: it is full. */
    lemma GroupEnd(hph: nat, max: nat, msk: nat, mskLen: nat, oct: nat, path: bits, i: nat, n: nat, dec: seq<Oct>)
      requires Called(hph, max, msk, mskLen, oct, path) && max < 256 && hph < i <= max && (i < max ==> code.syms[i].len > mskLen)
      requires var w := mskLen - 8 * oct; 0 < n <= Pow2(w) && Place(path, w, n) == Start(code.syms, i) && AllHits(hph, w, path, n, dec)
      ensures n == Pow2(mskLen - 8 * oct) && dec[n - 1].len == mskLen - 8 * oct
    {
      hide WfSyms; hide Pow2; hide Align; hide Shape; hide HitEntry;
      var w, g := mskLen - 8 * oct, Pow2(32 - mskLen);
      CodeFacts(code.syms, max - 1);
      if i < max - 1 { StartOrder(code.syms, i, max - 1); }
      Pow2Add(w, 32 - mskLen);
      Places(n, Pow2(w), g);
      MulAdd(n, 1, g);
      assert HitEntry(code.syms, path, w, code.syms[hph].len - |path|, n - 1, dec[n - 1]);
      HitLength(code.syms, path, w, code.syms[hph].len - |path|, n - 1, dec[n - 1], max - 1);
    }

    /** ...and of the one of EOS: its last entries miss. */
    lemma ChainEnd(hph: nat, msk: nat, mskLen: nat, oct: nat, path: bits, i: nat, n: nat, dec: seq<Oct>)
      requires Called(hph, 256, msk, mskLen, oct, path) && hph < i <= 256
      requires code.syms[i - 1].len <= mskLen && (i < 256 ==> code.syms[i].len > mskLen)
      requires var w := mskLen - 8 * oct; n <= 256 && Place(path, w, n) == Start(code.syms, i) && AllHits(hph, w, path, n, dec)
      ensures if oct == 3 then n == 63 && dec[62].len == 6 else n <= 254 && Missing(i, n, oct + 1, path)
    {
      hide WfSyms; hide Pow2; hide Align; hide Shape; hide HitEntry;
      ChainHits(code.syms, i, oct, n);
      if oct == 3 {
        Pow2Of32();
        LastIs30(code.syms);
        CodeFacts(code.syms, 255);
        assert HitEntry(code.syms, path, 6, code.syms[hph].len - |path|, 62, dec[62]);
        HitLength(code.syms, path, 6, code.syms[hph].len - |path|, 62, dec[62], 255);
      } else {
        CodeFacts(code.syms, i);
      }
    }

    lemma FilledIs(hph: nat, max: nat, mskLen: nat, oct: nat, path: bits, n: nat, sz: nat, hits: seq<Oct>, dec: seq<Oct>)
      requires Starts(hph, max, mskLen, oct, path) && AllHits(hph, mskLen - 8 * oct, path, n, hits)
      requires 0 < n <= sz == Pow2(mskLen - 8 * oct) && sz <= |dec| && hits[..n] == dec[..n]
      requires forall m :: n <= m < sz ==> MissEntry(paths, path, mskLen - 8 * oct, m, dec[m])
      ensures Filled(code.syms, paths, path, Table(mskLen - 8 * oct, dec[..sz]), hph, n)
    {
      hide Pow2; hide Align; hide HitEntry; hide MissEntry; hide WfSyms;
      CodeFacts(code.syms, hph);
      var tab := Table(mskLen - 8 * oct, dec[..sz]);
      assert forall m :: 0 <= m < n ==> tab.oct[m] == dec[..n][m] == hits[m];
    }

    /** dec_generate */
    method Generate(hph: nat, max: nat, msk: nat, mskLen: nat, oct: nat, ghost path: bits) returns (u: nat)
      requires Called(hph, max, msk, mskLen, oct, path) && Made(|tabs|)
      modifies this
      ensures Grown() && Made(|old(tabs)|) && u == |old(tabs)| < |tabs| == |paths| && paths[u] == path
      decreases 8 - 2 * oct
    {
      hide WfSyms; hide Pow2; hide Align; hide Shape; hide Place; hide HitEntry; hide MissEntry; hide TableOk; hide Filled;
      var dec := new Oct[256](i => Oct(0, 0, None));
      u := |tabs|;
      tabs, paths := tabs + [Table(0, [])], paths + [path];
      var i, n := MakeHits(hph, max, dec, msk, mskLen, oct, path);
      var sz := n;
      ghost var hits := dec[..];
      Pow2Of32();
      if max == 256 {
        ChainEnd(hph, msk, mskLen, oct, path, i, n, hits);
        sz := MakeMisses(i, dec, n, oct + 1, path);
        MissLength(paths, path, oct, sz - 1, dec[sz - 1]);
        assert dec[..][..n] == hits[..n];
      } else {
        GroupEnd(hph, max, msk, mskLen, oct, path, i, n, hits);
      }
      var l := sz - 1;
      if dec[l].len == 0 { l := l - 1; }
      ghost var ts := Ts();
      FilledIs(hph, max, mskLen, oct, path, n, sz, hits, dec[..]);
      tabs := tabs[u := Table(dec[l].len, dec[..sz])];
      AllKept(code, ts, Ts(), u + 1);
      TableMade(code, Ts(), u, hph, n);
    }

    /** The call of dec_generate in `main`. */
    method Build()
      requires WfSyms(code.syms) && Shape(code.syms) && tabs == [] && paths == []
      modifies this
      ensures WfTables(code, Ts())
    {
      AlignNothing();
      ChainStart(0, 0);
      hide Align; hide WfSyms; hide Shape; hide TableOk;
      var u := Generate(0, 256, 0, 8, 0, []);
      AllSound(code, Ts());
    }
  }

  lemma AlignNothing()
    ensures Align([]) == 0 && Ones(0) == []
  {
  }

  lemma AllSound(c: Code, ts: Tables)
    requires |ts.tabs| == |ts.paths| > 0 && ts.paths[0] == [] && forall t :: 0 <= t < |ts.tabs| ==> TableOk(c, ts, t)
    ensures WfTables(c, ts)
  {
    forall t | 0 <= t < |ts.tabs|
      ensures Shaped(ts, t) && WfTable(c, ts, t)
    {
      assert TableOk(c, ts, t);
    }
    hide WfTable; hide Shaped;
  }

  lemma MissLength(paths: seq<bits>, path: bits, oct: nat, m: nat, e: Oct)
    requires |path| == 8 * oct && oct <= 3 && MissEntry(paths, path, if oct == 3 then 6 else 8, m, e)
    ensures e.len == if oct == 3 then 0 else 8
  {
  }

  lemma MaskIs(oct: nat)
    requires 1 <= oct <= 3
    ensures 0xffff_ffff * Pow2(32 - 8 * oct) % 0x1_0000_0000 == Align(Ones(8 * oct))
  {
    AlignOnes(8 * oct);
    Pow2Of32();
    assert Pow2(32 - 8 * oct) == [0, 0x100_0000, 0x1_0000, 0x100][oct];
    hide Pow2; hide Align;
  }

  lemma EosPath()
    ensures Ones(24) + Of(63, 6) == Eos()
  {
    Pow2Of32();
    ValOnes(6);
    OfVal(Ones(6));
  }

  lemma OnesOctet(n: nat)
    ensures Ones(n) + Of(255, 8) == Ones(n + 8)
  {
    Pow2Table();
    ValOnes(8);
    OfVal(Ones(8));
  }
}

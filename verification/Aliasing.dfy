/** HPT_index on the block of memory: what each of its two paths writes, and when the result is the table it should be. */
module Aliasing {
  import opened Common
  import opened TableSpec
  import opened TableBytes

  /** The header fields written last by HPT_index. */
  function Finish(m: seq<byte>, e: Entry): (r: seq<byte>)
    requires 20 <= |m|
    ensures |r| == |m|
  {
    Blit(Blit(Blit(Blit(m, 0, Le(MAGIC, 4)), 8, Le(0, 8)), 16, Le(|e.nam|, 2)), 18, Le(|e.val|, 2))
  }

  lemma FinishSlices(m: seq<byte>, e: Entry)
    requires 20 <= |m|
    ensures var r := Finish(m, e);
            && r[..4] == Le(MAGIC, 4) && r[8..16] == Le(0, 8) && r[16..20] == SizeBytes(e)
            && r[20..] == m[20..]
  {
    hide Blit; hide Le;
    var a, b, c, d := Le(MAGIC, 4), Le(0, 8), Le(|e.nam|, 2), Le(|e.val|, 2);
    var m1 := Blit(m, 0, a);
    var m2 := Blit(m1, 8, b);
    var m3 := Blit(m2, 16, c);
    var r := Blit(m3, 18, d);
    BlitSlice(m, 0, a, 0, 4); BlitSlice(m1, 8, b, 0, 4); BlitSlice(m2, 16, c, 0, 4); BlitSlice(m3, 18, d, 0, 4);
    BlitSlice(m1, 8, b, 8, 16); BlitSlice(m2, 16, c, 8, 16); BlitSlice(m3, 18, d, 8, 16);
    BlitSlice(m2, 16, c, 16, 18); BlitSlice(m3, 18, d, 16, 18);
    BlitSlice(m3, 18, d, 18, 20);
    BlitSlice(m, 0, a, 20, |m|); BlitSlice(m1, 8, b, 20, |m|); BlitSlice(m2, 16, c, 20, |m|); BlitSlice(m3, 18, d, 20, |m|);
    assert a[0..4] == a && b[0..8] == b && c[0..2] == c && d[0..2] == d;
    assert r[..4] == r[0..4] && r[20..] == r[20..|m|] && m[20..] == m[20..|m|];
    assert r[16..20] == r[16..18] + r[18..20];
  }

  /** A block made of one more entry and of a table that is told the size of that entry. */
  lemma Assemble(m: seq<byte>, e: Entry, es: seq<Entry>, l: nat)
    requires EntrySize(e) + l <= |m|
    requires m[..4] == Le(MAGIC, 4) && m[8..16] == Le(0, 8) && m[16..20] == SizeBytes(e)
    ensures var n := EntrySize(e);
            (IsTable(m[..n + l], [e] + es, 0) <==> m[HEADER..n] == Strings(e) && IsTable(m[n..n + l], es, n))
  {
    var n := EntrySize(e);
    var t, h := m[..n + l], m[..n];
    assert t[..n] == h && t[n..] == m[n..n + l];
    assert h[..4] == m[..4] && h[8..16] == m[8..16] && h[16..20] == m[16..20] && h[HEADER..] == m[HEADER..n];
    assert ([e] + es)[1..] == es;
  }

  /** The value, then the header. */
  function Complete(m: seq<byte>, e: Entry): (r: seq<byte>)
    requires EntrySize(e) <= |m|
    ensures |r| == |m|
  {
    Finish(Blit(m, HEADER + |e.nam| + 1, e.val + [0]), e)
  }

  lemma CompleteSlices(m: seq<byte>, e: Entry, j: nat)
    requires EntrySize(e) <= j <= |m|
    ensures var n, r := EntrySize(e), Complete(m, e);
            && r[..4] == Le(MAGIC, 4) && r[8..16] == Le(0, 8) && r[16..20] == SizeBytes(e)
            && r[HEADER..n] == m[HEADER..HEADER + |e.nam| + 1] + (e.val + [0])
            && r[n..j] == m[n..j]
  {
    var n, v, w := EntrySize(e), HEADER + |e.nam| + 1, e.val + [0];
    var b := Blit(m, v, w);
    var r := Complete(m, e);
    FinishSlices(b, e);
    BlitSlice(m, v, w, n, j);
    BlitSlice(m, v, w, HEADER, v);
    BlitSlice(m, v, w, v, n);
    hide Blit; hide Finish;
    SubSlice(r, 20, |r|, n - 20, j - 20);
    SubSlice(b, 20, |r|, n - 20, j - 20);
    SubSlice(r, 20, |r|, 10, n - 20);
    SubSlice(b, 20, |r|, 10, n - 20);
    assert b[HEADER..n] == b[HEADER..v] + b[v..n];
    assert w[0..|w|] == w;
  }

  /** Once the name and the moved table are in place, completing the entry makes the table. */
  lemma CompleteIff(m: seq<byte>, e: Entry, es: seq<Entry>, l: nat)
    requires EntrySize(e) + l <= |m|
    ensures var n := EntrySize(e);
            (IsTable(Complete(m, e)[..n + l], [e] + es, 0)
             <==> m[HEADER..HEADER + |e.nam| + 1] == e.nam + [0] && IsTable(m[n..n + l], es, n))
  {
    var n, x, y, z := EntrySize(e), m[HEADER..HEADER + |e.nam| + 1], e.nam + [0], e.val + [0];
    CompleteSlices(m, e, n + l);
    Assemble(Complete(m, e), e, es, l);
    assert Strings(e) == y + z;
    if x + z == y + z { assert x == (x + z)[..|y|] == (y + z)[..|y|] == y; }
  }

  // ---- the name comes from outside of the table ----

  function PlainInsert(m: seq<byte>, e: Entry, l: nat): (r: seq<byte>)
    requires EntrySize(e) + l <= |m|
    ensures |r| == |m|
  {
    var m1 := Move(Blit(m, 8, Le(EntrySize(e), 8)), EntrySize(e), 0, l);
    Complete(Blit(m1, HEADER, e.nam + [0]), e)
  }

  /** The block before the entry is completed: the name is in place, the table has moved. */
  lemma PlainSlices(m: seq<byte>, w: seq<byte>, n: nat, l: nat)
    requires HEADER + |w| <= n && n + l <= |m|
    ensures var r := Blit(Move(m, n, 0, l), HEADER, w);
            r[HEADER..HEADER + |w|] == w && r[n..n + l] == m[..l]
  {
    hide Blit;
    var t := m[0..l];
    var m1 := Blit(m, n, t);
    BlitSlice(m, n, t, n, n + l);
    BlitSlice(m1, HEADER, w, n, n + l);
    BlitSlice(m1, HEADER, w, HEADER, HEADER + |w|);
    assert t[0..l] == t == m[..l] && w[0..|w|] == w;
  }

  lemma PlainInsertCorrect(m: seq<byte>, e: Entry, es: seq<Entry>, l: nat)
    requires EntrySize(e) + l <= |m| && IsTable(m[..l], es, 0)
    ensures IsTable(PlainInsert(m, e, l)[..EntrySize(e) + l], [e] + es, 0)
  {
    hide IsTable; hide Complete; hide Blit; hide Move; hide Le;
    var n, w := EntrySize(e), e.nam + [0];
    var m0 := Blit(m, 8, Le(n, 8));
    var m2 := Blit(Move(m0, n, 0, l), HEADER, w);
    PlainSlices(m0, w, n, l);
    MovedTable(m, es, l, n);
    CompleteIff(m2, e, es, l);
  }

  /** Writing the size of the new entry prepares the table for its move. */
  lemma MovedTable(m: seq<byte>, es: seq<Entry>, l: nat, n: nat)
    requires 16 <= |m| && l <= |m| && IsTable(m[..l], es, 0)
    ensures IsTable(Blit(m, 8, Le(n, 8))[..l], es, n)
  {
    if es != [] {
      TableLength(m[..l], es, 0);
      SetPre(m[..l], es, 0, n);
      hide IsTable;
      BlitTake(m, 8, Le(n, 8), l);
    } else {
      assert l == 0;
    }
  }

  // ---- the name is in the table: hpt_move_evicted ----

  /** The octets moved at once. */
  const CHUNK: nat := 64

  /** The loop: `n` octets of the name are left at `src`, the table is at `t`. */
  function Passes(m: seq<byte>, t: nat, src: nat, n: nat, l: nat): (r: seq<byte>)
    requires HEADER + t + n <= |m| && t + n + l <= |m| && src + n <= |m|
    ensures |r| == |m|
    decreases n
  {
    if n == 0 then m
    else
      var z := if n < CHUNK then n else CHUNK;
      Passes(Blit(Move(m, t + z, t, l), HEADER, m[src..src + z]), t + z, src + z, n - z, l)
  }

  function AliasedInsert(m: seq<byte>, src: nat, e: Entry, l: nat): (r: seq<byte>)
    requires EntrySize(e) + l <= |m| && src + |e.nam| + 1 <= |m|
    ensures |r| == |m|
  {
    var n := |e.nam| + 1;
    var m1 := Passes(Blit(m, 8, Le(EntrySize(e), 8)), 0, src, n, l);
    Complete(Move(m1, EntrySize(e), n, l), e)
  }

  /**
   When the loop is right: with nothing left in the table, for the names that fit in one pass; otherwise for the names that
   only reach the pad of the first survivor, or that write over its sizes what they already hold.
   */
  predicate AliasSafe(nam: seq<byte>, es: seq<Entry>) {
    if es == [] then |nam| < CHUNK
    else |nam| <= 9 || (|nam| <= 13 && SizeBytes(es[0])[13 - |nam|..] == nam[..|nam| - 9])
  }

  /** The first survivor after a single pass of a name of less than 30 octets. */
  lemma HeaderOverwritten(x: seq<byte>, es: seq<Entry>, pre: nat, nam: seq<byte>)
    requires es != [] && IsTable(x, es, pre) && |nam| <= 13
    ensures IsTable(Blit(x, 29 - |nam|, nam + [0]), es, pre) <==> AliasSafe(nam, es)
  {
    var n, w := EntrySize(es[0]), nam + [0];
    var at := 30 - |w|;
    var y := Blit(x, at, w);
    var a, b := x[..n], y[..n];
    BlitSlice(x, at, w, n, |x|);
    assert y[n..] == x[n..];
    BlitSlice(x, at, w, 0, 4);
    BlitSlice(x, at, w, 8, 16);
    BlitSlice(x, at, w, 30, n);
    assert b[..4] == y[0..4] == x[0..4] == a[..4];
    assert b[8..16] == y[8..16] == x[8..16] == a[8..16];
    assert b[HEADER..] == y[30..n] == x[30..n] == a[HEADER..];
    assert b[16..20] == y[16..20] && a[16..20] == x[16..20];
    if |nam| <= 9 {
      BlitSlice(x, at, w, 16, 20);
    } else {
      var k := 13 - |nam|;
      BlitSlice(x, at, w, 16, at);
      BlitSlice(x, at, w, at, 20);
      assert y[16..20] == y[16..at] + y[at..20];
      SubSlice(x, 16, 20, 0, k);
      var z := SizeBytes(es[0]);
      assert y[16..at] == z[..k];
      assert y[at..20] == w[0..20 - at] == nam[..|nam| - 9];
      AppendTake(z[..k], z[k..]);
      AppendTake(y[16..at], y[at..20]);
      assert z == z[..k] + z[k..];
    }
  }

  /** A back-link is less than 65536: its last octet is 0. */
  lemma BackLinkTop(m: seq<byte>, es: seq<Entry>, pre: nat)
    requires es != [] && pre < 0x1_0000 && IsTable(m, es, pre)
    ensures |m| > 15 && m[15] == 0
  {
    Pow2Table();
    LeSmall(pre, 8, 2);
    var h := m[..EntrySize(es[0])];
    assert m[15] == h[8..16][7];
  }

  /** A single pass: the name is in place, and the moved table has its first header written over. */
  lemma OnePass(m: seq<byte>, src: nat, w: seq<byte>, l: nat)
    requires 0 < |w| <= CHUNK && HEADER + |w| <= |m| && |w| + l <= |m| && src + |w| <= |m|
    requires m[src..src + |w|] == w
    ensures var n, r := |w|, Passes(m, 0, src, |w|, l);
            && r == Blit(Move(m, n, 0, l), HEADER, w)
            && r[HEADER..HEADER + n] == w
            && (14 < n && l > 15 ==> r[n + 15] == w[n - 15])
  {
    var n := |w|;
    var m1 := Move(m, n, 0, l);
    var r := Blit(m1, HEADER, w);
    assert Passes(r, n, src + n, 0, l) == r;
    BlitSlice(m1, HEADER, w, HEADER, HEADER + n);
    assert w[0..n] == w;
    if 14 < n && l > 15 { BlitAt(m1, HEADER, w, n + 15); }
  }

  /** What the pass does to the moved table, seen from the table. */
  lemma OverlaidTable(m: seq<byte>, w: seq<byte>, l: nat)
    requires |w| <= 14 && HEADER <= l && |w| + l <= |m|
    ensures var n := |w|; Blit(Move(m, n, 0, l), HEADER, w)[n..n + l] == Blit(m[..l], HEADER - n, w)
  {
    var n, x := |w|, m[0..l];
    var m1 := Move(m, n, 0, l);
    var r := Blit(m1, HEADER, w);
    BlitSlice(m, n, x, n, n + l);
    assert x[0..l] == x && m[..l] == x;
    BlitSlice(m1, HEADER, w, n, HEADER);
    BlitSlice(m1, HEADER, w, HEADER, HEADER + n);
    BlitSlice(m1, HEADER, w, HEADER + n, n + l);
    SubSlice(m1, n, n + l, 0, HEADER - n);
    SubSlice(m1, n, n + l, HEADER, l);
    hide Move;
    assert w[0..n] == w;
    assert r[n..n + l] == r[n..HEADER] + r[HEADER..HEADER + n] + r[HEADER + n..n + l];
  }

  lemma OnePassTable(m: seq<byte>, src: nat, nam: seq<byte>, es: seq<Entry>, l: nat, pre: nat)
    requires |nam| < CHUNK && HEADER + |nam| + 1 <= |m| && |nam| + 1 + l <= |m| && src + |nam| + 1 <= |m|
    requires IsTable(m[..l], es, pre) && pre < 0x1_0000
    requires m[src..src + |nam| + 1] == nam + [0] && 0 !in nam
    ensures var n, r := |nam| + 1, Passes(m, 0, src, |nam| + 1, l);
            IsTable(r[n..n + l], es, pre) <==> AliasSafe(nam, es)
  {
    hide IsEntry; hide Passes; hide Move; hide Blit;
    var n, w := |nam| + 1, nam + [0];
    var r := Passes(m, 0, src, n, l);
    OnePass(m, src, w, l);
    TableLength(m[..l], es, pre);
    if es == [] {
      assert r[n..n + l] == [];
    } else if n <= 14 {
      OverlaidTable(m, w, l);
      HeaderOverwritten(m[..l], es, pre, nam);
    } else {
      var y := r[n..n + l];
      assert y[15] == r[n + 15] == w[n - 15] == nam[n - 15];
      if IsTable(y, es, pre) { BackLinkTop(y, es, pre); }
    }
  }

  /** After the first of several passes the table is past the written region, with its first header spoiled for good. */
  lemma {:induction false} SpoiledStays(m: seq<byte>, t: nat, src: nat, n: nat, l: nat)
    requires HEADER + t + n <= |m| && t + n + l <= |m| && src + n <= |m|
    requires t >= CHUNK && l > 15 && m[t + 15] != 0
    ensures Passes(m, t, src, n, l)[t + n + 15] != 0
    decreases n
  {
    if n > 0 {
      var z := if n < CHUNK then n else CHUNK;
      var m1 := Move(m, t + z, t, l);
      var m2 := Blit(m1, HEADER, m[src..src + z]);
      BlitAt(m, t + z, m[t..t + l], t + z + 15);
      BlitAt(m1, HEADER, m[src..src + z], t + z + 15);
      hide Blit;
      SpoiledStays(m2, t + z, src + z, n - z, l);
    }
  }

  /** With nothing to move, the last pass writes the NUL of the name over one of its octets. */
  lemma {:induction false} NulWritten(m: seq<byte>, t: nat, src: nat, n: nat) returns (k: nat)
    requires HEADER + t + n <= |m| && src + n <= |m| && n > 0
    requires src + n > HEADER + CHUNK && m[src + n - 1] == 0
    ensures HEADER <= k < HEADER + Min(n, CHUNK) && Passes(m, t, src, n, 0)[k] == 0
    decreases n
  {
    hide Blit; hide Move;
    var z := if n < CHUNK then n else CHUNK;
    var m1, w := Move(m, t + z, t, 0), m[src..src + z];
    var m2 := Blit(m1, HEADER, w);
    MoveNothing(m, t + z, t);
    k := HEADER + z - 1;
    BlitAt(m1, HEADER, w, k);
    BlitAt(m1, HEADER, w, src + n - 1);
    if n > CHUNK {
      k := NulWritten(m2, t + z, src + z, n - z);
    }
  }

  /** Several passes never give the table: either its first header is spoiled... */
  lemma ManyPassesSpoil(m: seq<byte>, src: nat, w: seq<byte>, l: nat)
    requires |w| > CHUNK && HEADER + |w| <= |m| && |w| + l <= |m| && src + |w| <= |m|
    requires m[src..src + |w|] == w && l > 15 && w[49] != 0
    ensures Passes(m, 0, src, |w|, l)[|w| + 15] != 0
  {
    var n := |w|;
    var a, c := Move(m, CHUNK, 0, l), m[src..src + CHUNK];
    var b := Blit(a, HEADER, c);
    BlitAt(a, HEADER, c, CHUNK + 15);
    assert c[49] == m[src + 49] == m[src..src + n][49];
    SpoiledStays(b, CHUNK, src + CHUNK, n - CHUNK, l);
  }

  /** ...or the name is. */
  lemma ManyPassesName(m: seq<byte>, src: nat, nam: seq<byte>)
    requires |nam| >= CHUNK && HEADER + |nam| + 1 <= |m| && HEADER <= src && src + |nam| + 1 <= |m|
    requires m[src..src + |nam| + 1] == nam + [0] && 0 !in nam
    ensures Passes(m, 0, src, |nam| + 1, 0)[HEADER..HEADER + |nam| + 1] != nam + [0]
  {
    var n, w := |nam| + 1, nam + [0];
    assert m[src + n - 1] == m[src..src + n][n - 1] == 0;
    var k := NulWritten(m, 0, src, n);
    var r := Passes(m, 0, src, n, 0);
    hide Passes;
    assert r[HEADER..HEADER + n][k - HEADER] == 0;
    assert w[k - HEADER] == nam[k - HEADER];
  }

  lemma ManyPasses(m: seq<byte>, src: nat, nam: seq<byte>, es: seq<Entry>, l: nat, pre: nat)
    requires |nam| >= CHUNK && HEADER + |nam| + 1 <= |m| && |nam| + 1 + l <= |m| && HEADER <= src && src + |nam| + 1 <= |m|
    requires IsTable(m[..l], es, pre) && pre < 0x1_0000
    requires m[src..src + |nam| + 1] == nam + [0] && 0 !in nam
    ensures var n, r := |nam| + 1, Passes(m, 0, src, |nam| + 1, l);
            !(r[HEADER..HEADER + n] == nam + [0] && IsTable(r[n..n + l], es, pre))
  {
    hide Passes;
    var n, w := |nam| + 1, nam + [0];
    var r := Passes(m, 0, src, n, l);
    TableLength(m[..l], es, pre);
    hide IsTable;
    if es != [] {
      assert w[49] == nam[49];
      ManyPassesSpoil(m, src, w, l);
      var y := r[n..n + l];
      assert y[15] == r[n + 15];
      if IsTable(y, es, pre) { BackLinkTop(y, es, pre); }
    } else {
      ManyPassesName(m, src, nam);
    }
  }

  lemma PassesExact(m: seq<byte>, src: nat, nam: seq<byte>, es: seq<Entry>, l: nat, pre: nat)
    requires HEADER + |nam| + 1 <= |m| && |nam| + 1 + l <= |m| && HEADER <= src && src + |nam| + 1 <= |m|
    requires IsTable(m[..l], es, pre) && pre < 0x1_0000
    requires m[src..src + |nam| + 1] == nam + [0] && 0 !in nam
    ensures var n, r := |nam| + 1, Passes(m, 0, src, |nam| + 1, l);
            (r[HEADER..HEADER + n] == nam + [0] && IsTable(r[n..n + l], es, pre) <==> AliasSafe(nam, es))
  {
    if |nam| < CHUNK {
      OnePass(m, src, nam + [0], l);
      OnePassTable(m, src, nam, es, l, pre);
      hide Passes; hide IsTable;
    } else {
      ManyPasses(m, src, nam, es, l, pre);
      hide Passes; hide IsTable;
    }
  }

  /** The last move, and the completion of the entry. */
  lemma LastMove(m: seq<byte>, e: Entry, es: seq<Entry>, l: nat)
    requires EntrySize(e) + l <= |m|
    ensures var n, z := |e.nam| + 1, EntrySize(e);
            (IsTable(Complete(Move(m, z, n, l), e)[..z + l], [e] + es, 0)
             <==> m[HEADER..HEADER + n] == e.nam + [0] && IsTable(m[n..n + l], es, z))
  {
    hide IsTable; hide Complete; hide Blit;
    var n, z := |e.nam| + 1, EntrySize(e);
    var t := m[n..n + l];
    var m2 := Blit(m, z, t);
    BlitSlice(m, z, t, HEADER, HEADER + n);
    BlitSlice(m, z, t, z, z + l);
    assert t[0..l] == t;
    assert m2 == Move(m, z, n, l);
    CompleteIff(m2, e, es, l);
  }

  /**
   Insertion with a name held by the table, possibly in an entry that was just evicted (section 4.4 of RFC 7541): the
   result is the table with the new entry in front exactly when the name is safe.
   */
  lemma AliasedInsertExact(m: seq<byte>, src: nat, e: Entry, es: seq<Entry>, l: nat)
    requires EntrySize(e) + l <= |m| && EntrySize(e) < 0x1_0000
    requires HEADER <= src && src + |e.nam| + 1 <= |m|
    requires m[src..src + |e.nam| + 1] == e.nam + [0] && 0 !in e.nam
    requires IsTable(m[..l], es, 0)
    ensures IsTable(AliasedInsert(m, src, e, l)[..EntrySize(e) + l], [e] + es, 0) <==> AliasSafe(e.nam, es)
  {
    hide IsTable; hide Passes; hide AliasSafe; hide Complete; hide Move; hide Blit; hide Le;
    var n, z := |e.nam| + 1, EntrySize(e);
    var m0 := Blit(m, 8, Le(z, 8));
    MovedTable(m, es, l, z);
    BlitSlice(m, 8, Le(z, 8), src, src + n);
    PassesExact(m0, src, e.nam, es, l, z);
    LastMove(Passes(m0, 0, src, n, l), e, es, l);
  }

  /** Any name of ten octets, taken from an entry that stays: the pass writes over the size of the value of that entry. */
  lemma SurvivorCounterexample(m: seq<byte>, nam: seq<byte>, val: seq<byte>)
    requires |nam| == 10 && 0 !in nam && 85 + |val| <= |m| < 0x1_0000
    requires var was := Entry(nam, [1]); IsTable(m[..EntrySize(was)], [was], 0)
    ensures var e, was := Entry(nam, val), Entry(nam, [1]);
            !IsTable(AliasedInsert(m, HEADER, e, EntrySize(was))[..EntrySize(e) + EntrySize(was)], [e, was], 0)
  {
    var e, was := Entry(nam, val), Entry(nam, [1]);
    var l := EntrySize(was);
    StringsAt(m, l, [was], 0);
    assert SizeBytes(was)[3..] == [0] by { assert Le(1, 2) == [1, 0]; }
    assert nam[..1] == [nam[0]];
    assert !AliasSafe(nam, [was]);
    AliasedInsertExact(m, HEADER, e, [was], l);
    assert [e] + [was] == [e, was];
  }

  /** Any name of 64 octets, taken from an entry that was evicted like all others: the second pass reads what the first wrote. */
  lemma EvictedCounterexample(m: seq<byte>, e: Entry)
    requires |e.nam| == CHUNK && 0 !in e.nam && EntrySize(e) <= |m| < 0x1_0000 && m[HEADER..HEADER + CHUNK + 1] == e.nam + [0]
    ensures !IsTable(AliasedInsert(m, HEADER, e, 0)[..EntrySize(e)], [e], 0)
  {
    AliasedInsertExact(m, HEADER, e, [], 0);
    assert [e] + [] == [e];
  }
}

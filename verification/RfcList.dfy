/** The list of inc/tbl/hpack_huffman.h: the lengths and the codes of RFC 7541 (appendix B), for any character column. */
module RfcList {
  import opened Common
  import opened HuffmanCode
  import opened Canonical
  import opened HuffmanTables
  import opened HuffmanGenerator

  /** A run of codes of one length: where it starts in the list, and its first code. */
  datatype Row = Row(at: nat, len: pos, cod: nat)

  /** The run that the code `i` belongs to. */
  function RowOf(i: nat): Row {
    if i < 10 then Row(0, 5, 0x0)
    else if i < 36 then Row(10, 6, 0x14)
    else if i < 68 then Row(36, 7, 0x5c)
    else if i < 74 then Row(68, 8, 0xf8)
    else if i < 79 then Row(74, 10, 0x3f8)
    else if i < 82 then Row(79, 11, 0x7fa)
    else if i < 84 then Row(82, 12, 0xffa)
    else if i < 90 then Row(84, 13, 0x1ff8)
    else if i < 92 then Row(90, 14, 0x3ffc)
    else if i < 95 then Row(92, 15, 0x7ffc)
    else if i < 98 then Row(95, 19, 0x7fff0)
    else if i < 106 then Row(98, 20, 0xfffe6)
    else if i < 119 then Row(106, 21, 0x1fffdc)
    else if i < 145 then Row(119, 22, 0x3fffd2)
    else if i < 174 then Row(145, 23, 0x7fffd8)
    else if i < 186 then Row(174, 24, 0xffffea)
    else if i < 190 then Row(186, 25, 0x1ffffec)
    else if i < 205 then Row(190, 26, 0x3ffffe0)
    else if i < 224 then Row(205, 27, 0x7ffffde)
    else if i < 253 then Row(224, 28, 0xfffffe2)
    else Row(253, 30, 0x3ffffffc)
  }

  function SymAt(i: nat, chr: byte): Sym {
    var r := RowOf(i);
    Sym(if i >= r.at then r.cod + (i - r.at) else 0, r.len, chr)
  }

  function Syms(chrs: seq<byte>): seq<Sym>
    requires |chrs| == 256
  {
    seq(256, i requires 0 <= i < 256 => SymAt(i, chrs[i]))
  }

  /** The powers of two that the list needs. */
  lemma Powers()
    ensures Pow2(16) == 0x10000 && Pow2(2) == 0x4 && Pow2(4) == 0x10 && Pow2(5) == 0x20 && Pow2(6) == 0x40
    ensures Pow2(7) == 0x80 && Pow2(8) == 0x100 && Pow2(9) == 0x200 && Pow2(10) == 0x400 && Pow2(11) == 0x800
    ensures Pow2(12) == 0x1000 && Pow2(13) == 0x2000 && Pow2(14) == 0x4000 && Pow2(15) == 0x8000 && Pow2(17) == 0x20000
    ensures Pow2(18) == 0x40000 && Pow2(19) == 0x80000 && Pow2(20) == 0x100000 && Pow2(21) == 0x200000 && Pow2(22) == 0x400000
    ensures Pow2(23) == 0x800000 && Pow2(24) == 0x1000000 && Pow2(25) == 0x2000000 && Pow2(26) == 0x4000000 && Pow2(27) == 0x8000000
    ensures Pow2(28) == 0x10000000 && Pow2(30) == 0x40000000
  {
    Pow2Table();
    Pow2Add(16, 8);
  }

  function MsbAt(i: nat): nat {
    if i >= 256 then END
    else
      var r := RowOf(i);
      if r.len <= 32 && i >= r.at then (r.cod + (i - r.at)) * Pow2(32 - r.len) else 0
  }

  /** Codes of one length follow each other, and so do runs. */
  ghost predicate Follows(i: nat)
    requires i < 256
  {
    var r := RowOf(i);
    && r.at <= i && 5 <= r.len <= 30 && r.cod + (i - r.at) < Pow2(r.len) && MsbAt(i + 1) == MsbAt(i) + Pow2(32 - r.len)
    && (i < 255 ==> r.len <= RowOf(i + 1).len)
  }

  lemma ConsecutiveFirst(i: nat)
    requires i < 68
    ensures Follows(i)
  {
    Powers();
    hide Pow2;
  }

  lemma ConsecutiveShort(i: nat)
    requires 68 <= i < 90
    ensures Follows(i)
  {
    Powers();
    hide Pow2;
  }

  lemma ConsecutiveMiddle(i: nat)
    requires 90 <= i < 119
    ensures Follows(i)
  {
    Powers();
    hide Pow2;
  }

  lemma ConsecutiveLong(i: nat)
    requires 119 <= i < 256
    ensures Follows(i)
  {
    Powers();
    hide Pow2;
  }

  lemma Consecutive(i: nat)
    requires i < 256
    ensures Follows(i)
  {
    hide Follows;
    if i < 68 {
      ConsecutiveFirst(i);
    } else if i < 90 {
      ConsecutiveShort(i);
    } else if i < 119 {
      ConsecutiveMiddle(i);
    } else {
      ConsecutiveLong(i);
    }
  }

  /** What the generator asks of the lengths. */
  lemma Shaped256(i: nat, k: nat)
    requires i < 256 && 1 <= k <= 3
    ensures var r := RowOf(i);
            && (r.len > 8 * k ==> MsbAt(i) + 10 * Pow2(32 - 8 * k) >= 0x1_0000_0000)
            && (k >= 2 && r.len == 8 * k ==> MsbAt(i) + Pow2(40 - 8 * k) >= 0x1_0000_0000)
  {
    Powers();
    assert Pow2(32 - 8 * k) == [0x100_0000, 0x1_0000, 0x100][k - 1] && (k >= 2 ==> Pow2(40 - 8 * k) == [0, 0x100_0000, 0x1_0000][k - 1]);
    hide Pow2;
  }

  lemma {:induction false} MsbOrder(i: nat, j: nat)
    requires i <= j <= 256
    ensures MsbAt(i) <= MsbAt(j)
    decreases j
  {
    hide MsbAt; hide RowOf;
    if i < j {
      Consecutive(j - 1);
      MsbOrder(i, j - 1);
    }
  }

  /** The first codes of more than 8, 16 and 24 bits. */
  lemma Firsts(i: nat, k: nat)
    requires i < 256 && 1 <= k <= 3
    ensures RowOf(i).len <= 8 * k <==> i < [74, 95, 186][k - 1]
  {
  }

  lemma FirstStarts()
    ensures MsbAt(74) == 0xfe00_0000 && MsbAt(95) == 0xfffe_0000 && MsbAt(186) == 0xffff_f600
  {
    Powers();
    hide Pow2;
  }

  /** At least two places are left for them. */
  lemma LeavesTwo(i: nat, k: nat)
    requires i < 256 && 1 <= k <= 3 && RowOf(i).len <= 8 * k
    ensures MsbAt(i + 1) + 2 * Pow2(32 - 8 * k) <= 0x1_0000_0000
  {
    Firsts(i, k);
    Powers();
    FirstStarts();
    hide RowOf; hide MsbAt;
    assert Pow2(32 - 8 * k) == [0x100_0000, 0x1_0000, 0x100][k - 1];
    hide Pow2;
    MsbOrder(i + 1, [74, 95, 186][k - 1]);
  }

  lemma SymFacts(chrs: seq<byte>, i: nat)
    requires |chrs| == 256 && i < 256
    ensures var s := Syms(chrs)[i]; s.len == RowOf(i).len && 5 <= s.len <= 30 && s.cod < Pow2(s.len) && Msb(s) == MsbAt(i)
    ensures MsbAt(i + 1) == MsbAt(i) + Pow2(32 - RowOf(i).len) && (i < 255 ==> RowOf(i).len <= RowOf(i + 1).len)
  {
    Consecutive(i);
    hide Pow2; hide RowOf;
  }

  lemma SymsSized(chrs: seq<byte>)
    requires |chrs| == 256
    ensures Sized(Syms(chrs)) && forall i :: 0 <= i <= 256 ==> Start(Syms(chrs), i) == MsbAt(i)
  {
    var syms := Syms(chrs);
    forall i | 0 <= i < 256
      ensures syms[i].len == RowOf(i).len && 5 <= syms[i].len <= 30 && syms[i].cod < Pow2(syms[i].len) && Msb(syms[i]) == MsbAt(i)
    {
      SymFacts(chrs, i);
    }
    hide Syms; hide RowOf; hide Pow2; hide Msb;
  }

  lemma AllLate(chrs: seq<byte>, i: nat, k: nat)
    requires |chrs| == 256 && i < 256 && 1 <= k <= 3
    ensures Sized(Syms(chrs)) && Late(Syms(chrs), i, k)
  {
    SymsSized(chrs);
    SymFacts(chrs, i);
    Shaped256(i, k);
    hide Syms; hide RowOf; hide MsbAt; hide Pow2; hide Start; hide Sized;
    if RowOf(i).len <= 8 * k { LeavesTwo(i, k); }
  }

  /** The list of RFC 7541 is canonical, and of the shape that the generator asks for. */
  lemma RfcIsCanonical(chrs: seq<byte>)
    requires |chrs| == 256
    ensures WfSyms(Syms(chrs)) && Shape(Syms(chrs))
  {
    var syms := Syms(chrs);
    SymsSized(chrs);
    forall i | 0 <= i < 256
      ensures Late(syms, i, 1) && Late(syms, i, 2) && Late(syms, i, 3)
    {
      AllLate(chrs, i, 1);
      AllLate(chrs, i, 2);
      AllLate(chrs, i, 3);
    }
    forall i | 0 <= i < 256
      ensures syms[i].len == RowOf(i).len && 5 <= syms[i].len <= 30 && syms[i].cod < Pow2(syms[i].len) && Msb(syms[i]) == MsbAt(i)
      ensures MsbAt(i + 1) == MsbAt(i) + Span(syms[i]) && (i < 255 ==> RowOf(i).len <= RowOf(i + 1).len)
    {
      SymFacts(chrs, i);
    }
    assert MsbAt(0) == 0;
    hide Syms; hide RowOf; hide MsbAt; hide Pow2; hide Late; hide Msb; hide Span;
  }

  /** The tables that go on after 1, 2 and 3 octets are 2, 2 and 10, so that their printed names differ. */
  lemma RfcNames(chrs: seq<byte>, k: nat)
    requires |chrs| == 256 && 1 <= k <= 3
    ensures var syms, i, sub := Syms(chrs), [74, 95, 186][k - 1], [2, 2, 10][k - 1];
            && Sized(syms) && syms[i - 1].len <= 8 * k < syms[i].len && Start(syms, i) + sub * Pow2(32 - 8 * k) == 0x1_0000_0000
            && forall j, m :: 0 <= j < m < sub ==> NameDigits(sub, j) != NameDigits(sub, m)
  {
    RfcIsCanonical(chrs);
    Powers();
    NamesDistinct([2, 2, 10][k - 1]);
    assert Pow2(32 - 8 * k) == [0x100_0000, 0x1_0000, 0x100][k - 1];
    assert Pow2(22) == 0x40_0000 && Pow2(13) == 0x2000 && Pow2(7) == 0x80;
    hide Pow2; hide NameDigits;
  }

  /** With any character column it is a prefix code. */
  lemma RfcIsCode(chrs: seq<byte>, enc: seq<nat>)
    requires |chrs| == 256 && Inverse(Syms(chrs), enc)
    ensures WfCode(Code(Syms(chrs), enc))
  {
    RfcIsCanonical(chrs);
    CanonicalIsCode(Syms(chrs), enc);
  }

  /** The decoding tables of the library: the model of gen/hpack_huf_dec.c applied to the list. */
  method RfcTables(chrs: seq<byte>, enc: seq<nat>) returns (ts: Tables)
    requires |chrs| == 256 && Inverse(Syms(chrs), enc)
    ensures WfTables(Code(Syms(chrs), enc), ts)
  {
    RfcIsCanonical(chrs);
    hide Syms; hide Inverse; hide WfSyms; hide Shape;
    var g := new Generator(Code(Syms(chrs), enc));
    g.Build();
    ts := Tables(g.tabs, g.paths);
  }
}

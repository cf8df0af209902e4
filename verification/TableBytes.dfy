/**
 The dynamic table as one block of memory (`struct hpt_entry`, inc/hpack_priv.h): entries packed newest first, each with a
 header of 30 octets, its name, a NUL, its value and a NUL. The last two octets of the C struct are the first two of the
 name, so that an entry takes exactly 32 octets more than its strings.

   0 magic   4 (hole)   8 pre_sz   16 nam_sz   18 val_sz   20 pad   30 name

 `pre_sz` is the size of the entry stored just before, 0 for the first one. Nothing is said of the hole and of the pad.
 */
module TableBytes {
  import opened Common
  import opened TableSpec

  const MAGIC := 0xe458_2b39
  const HEADER: nat := 30

  /** The two size fields of a header. */
  function SizeBytes(e: Entry): (s: seq<byte>)
    ensures |s| == 4
  {
    Le(|e.nam|, 2) + Le(|e.val|, 2)
  }

  function Strings(e: Entry): (s: seq<byte>)
    ensures |s| + HEADER == EntrySize(e)
  {
    e.nam + [0] + e.val + [0]
  }

  ghost predicate IsEntry(m: seq<byte>, e: Entry, pre: nat) {
    && |m| == EntrySize(e)
    && m[..4] == Le(MAGIC, 4)
    && m[8..16] == Le(pre, 8)
    && m[16..20] == SizeBytes(e)
    && m[HEADER..] == Strings(e)
  }

  ghost predicate IsTable(m: seq<byte>, es: seq<Entry>, pre: nat) {
    if es == [] then m == []
    else
      var n := EntrySize(es[0]);
      n <= |m| && IsEntry(m[..n], es[0], pre) && IsTable(m[n..], es[1..], n)
  }

  /** One step of the layout, without its quirks of slicing. */
  lemma Uncons(m: seq<byte>, es: seq<Entry>, pre: nat)
    requires es != []
    ensures var n := EntrySize(es[0]);
            (IsTable(m, es, pre) <==> n <= |m| && IsEntry(m[..n], es[0], pre) && IsTable(m[n..], es[1..], n))
  {
    hide IsEntry;
  }

  lemma {:induction false} TableLength(m: seq<byte>, es: seq<Entry>, pre: nat)
    requires IsTable(m, es, pre)
    ensures |m| == Total(es)
  {
    hide IsEntry;
    if es != [] { TableLength(m[EntrySize(es[0])..], es[1..], EntrySize(es[0])); }
  }

  /** The size stored before the k-th entry. */
  function Before(es: seq<Entry>, k: nat, pre: nat): nat
    requires k <= |es|
  {
    if k == 0 then pre else EntrySize(es[k - 1])
  }

  /** The sum of the sizes of a prefix, from its first entry. */
  lemma TotalTake(es: seq<Entry>, k: nat)
    requires 0 < k <= |es|
    ensures Total(es[..k]) == EntrySize(es[0]) + Total(es[1..][..k - 1])
  {
    assert es[..k][1..] == es[1..][..k - 1];
  }

  /** Every suffix of the entries is laid out as a table of its own. */
  lemma {:induction false} TableDrop(m: seq<byte>, es: seq<Entry>, pre: nat, k: nat)
    requires IsTable(m, es, pre) && k <= |es|
    ensures Total(es[..k]) <= |m| && IsTable(m[Total(es[..k])..], es[k..], Before(es, k, pre))
    decreases k
  {
    hide IsTable; hide IsEntry;
    if k == 0 {
      assert Total(es[..0]) == 0;
      assert m[0..] == m && es[0..] == es;
    } else {
      var n := EntrySize(es[0]);
      TotalTake(es, k);
      hide Total;
      Uncons(m, es, pre);
      TableDrop(m[n..], es[1..], n, k - 1);
      DropDrop(m, n, Total(es[1..][..k - 1]));
      DropDrop(es, 1, k - 1);
    }
  }

  /** So is every prefix. */
  lemma {:induction false} TableTake(m: seq<byte>, es: seq<Entry>, pre: nat, k: nat)
    requires IsTable(m, es, pre) && k <= |es|
    ensures Total(es[..k]) <= |m| && IsTable(m[..Total(es[..k])], es[..k], pre)
    decreases k
  {
    if k == 0 {
      assert IsTable(m[..0], es[..0], pre);
    } else {
      hide IsTable; hide IsEntry;
      var n := EntrySize(es[0]);
      TotalTake(es, k);
      hide Total;
      Uncons(m, es, pre);
      TableTake(m[n..], es[1..], n, k - 1);
      var o := Total(es[1..][..k - 1]);
      DropTake(m, n, o);
      TakeTake(m, n + o, n);
      DropTake(es, 1, k - 1);
      Uncons(m[..n + o], es[..k], pre);
    }
  }

  /** The k-th entry, where a walk over the sizes finds it. */
  lemma EntryAt(m: seq<byte>, es: seq<Entry>, pre: nat, k: nat)
    requires IsTable(m, es, pre) && k < |es|
    ensures var o, n := Total(es[..k]), EntrySize(es[k]);
            o + n <= |m| && IsEntry(m[o..o + n], es[k], Before(es, k, pre)) && Total(es[..k + 1]) == o + n
  {
    hide Total; hide IsEntry; hide IsTable;
    TableDrop(m, es, pre, k);
    var o, n := Total(es[..k]), EntrySize(es[k]);
    assert es[k..][0] == es[k];
    Uncons(m[o..], es[k..], Before(es, k, pre));
    DropTake(m, o, n);
    TotalLast(es[..k + 1]);
    TakeTake(es, k + 1, k);
  }

  /** Only the first entry depends on what is before it. */
  lemma SetPre(m: seq<byte>, es: seq<Entry>, pre: nat, pre': nat)
    requires IsTable(m, es, pre) && es != []
    ensures IsTable(Blit(m, 8, Le(pre', 8)), es, pre')
  {
    var n, m' := EntrySize(es[0]), Blit(m, 8, Le(pre', 8));
    var a, b, l := m[..n], m'[..n], Le(pre', 8);
    BlitSlice(m, 8, l, 0, 4);
    BlitSlice(m, 8, l, 8, 16);
    BlitSlice(m, 8, l, 16, n);
    assert l[0..8] == l;
    assert b[..4] == m'[0..4] && b[8..16] == m'[8..16];
    assert b[16..] == m'[16..n] && a[16..] == m[16..n];
    assert b[16..20] == b[16..][..4] && a[16..20] == a[16..][..4];
    assert b[HEADER..] == b[16..][14..] && a[HEADER..] == a[16..][14..];
    assert m'[n..] == m[n..];
  }

  /** The header fields an entry is read with. */
  lemma ReadHeader(m: seq<byte>, e: Entry, pre: nat)
    requires IsEntry(m, e, pre) && EntrySize(e) < 0x1_0000 && pre < 0x1_0000
    ensures LeVal(m[..4]) == MAGIC && LeVal(m[8..16]) == pre
    ensures LeVal(m[16..18]) == |e.nam| && LeVal(m[18..20]) == |e.val|
  {
    Pow2Table();
    Pow2Mono(16, 64);
    Pow2Add(16, 16);
    LeRoundTrip(MAGIC, 4);
    LeRoundTrip(pre, 8);
    LeRoundTrip(|e.nam|, 2);
    LeRoundTrip(|e.val|, 2);
    var s := m[16..20];
    assert m[16..18] == s[..2] == Le(|e.nam|, 2) && m[18..20] == s[2..] == Le(|e.val|, 2);
  }

  /** The strings it is read with. */
  lemma ReadStrings(m: seq<byte>, e: Entry, pre: nat)
    requires IsEntry(m, e, pre)
    ensures var v := HEADER + |e.nam| + 1;
            && m[HEADER..v] == e.nam + [0]
            && m[v..v + |e.val| + 1] == e.val + [0]
  {
    var t, x, y := m[HEADER..], e.nam + [0], e.val + [0];
    assert t == x + y;
    assert m[HEADER..HEADER + |x|] == t[..|x|] == x;
    assert m[HEADER + |x|..HEADER + |x| + |y|] == t[|x|..] == y;
  }

  /** Reading the header of the k-th entry from the block `t`, of which the table is the first `l` octets. */
  lemma HeaderAt(t: seq<byte>, l: nat, es: seq<Entry>, k: nat)
    requires l <= |t| && IsTable(t[..l], es, 0) && k < |es| && Total(es) < 0x1_0000
    ensures var he := Total(es[..k]);
            && he + EntrySize(es[k]) <= l && Total(es[..k + 1]) == he + EntrySize(es[k])
            && LeVal(t[he + 8..he + 16]) == Before(es, k, 0)
            && LeVal(t[he + 16..he + 18]) == |es[k].nam| && LeVal(t[he + 18..he + 20]) == |es[k].val|
  {
    hide IsTable; hide IsEntry; hide LeVal; hide Total;
    var m, he, n := t[..l], Total(es[..k]), EntrySize(es[k]);
    EntryAt(m, es, 0, k);
    TableLength(m, es, 0);
    if k > 0 { EntryAt(m, es, 0, k - 1); }
    var x := t[he..he + n];
    assert x == m[he..he + n];
    assert Before(es, k, 0) <= |m|;
    ReadHeader(x, es[k], Before(es, k, 0));
    SubSlice(t, he, he + n, 8, 16);
    SubSlice(t, he, he + n, 16, 18);
    SubSlice(t, he, he + n, 18, 20);
  }

  /** Reading its strings. */
  lemma StringsAt(t: seq<byte>, l: nat, es: seq<Entry>, k: nat)
    requires l <= |t| && IsTable(t[..l], es, 0) && k < |es|
    ensures var at := Total(es[..k]) + HEADER;
            var v := at + |es[k].nam| + 1;
            && v + |es[k].val| + 1 <= l
            && t[at..v] == es[k].nam + [0] && t[v..v + |es[k].val| + 1] == es[k].val + [0]
            && t[at..v - 1] == es[k].nam && t[v..v + |es[k].val|] == es[k].val
  {
    hide IsTable; hide IsEntry; hide Total;
    var m, he, n := t[..l], Total(es[..k]), EntrySize(es[k]);
    EntryAt(m, es, 0, k);
    var x := t[he..he + n];
    assert x == m[he..he + n];
    ReadStrings(x, es[k], Before(es, k, 0));
    var a, b := HEADER + |es[k].nam| + 1, he + HEADER + |es[k].nam| + 1;
    SubSlice(t, he, he + n, HEADER, a);
    SubSlice(t, he, he + n, a, n);
    var y, z := t[he + HEADER..b], t[b..he + n];
    assert y[..|es[k].nam|] == es[k].nam && z[..|es[k].val|] == es[k].val;
  }
}

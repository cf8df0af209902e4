/** HPT_search: a binary search in the static table sorted by name then value, and a linear scan of the dynamic one. */
module TableSearch {
  import opened Common
  import opened Validate
  import opened TableSpec
  import opened HpackTbl

  /** An entry of the sorted list printed by gen/hpack_static_hdr.c, with its index in the static table. */
  datatype Hdr = Hdr(nam: seq<byte>, val: seq<byte>, idx: u16)

  /** The sign of strcmp. */
  function Strcmp(a: seq<byte>, b: seq<byte>): (r: int)
    ensures r == 0 <==> a == b
  {
    if a == [] then (if b == [] then 0 else -1)
    else if b == [] then 1
    else if a[0] != b[0] then a[0] - b[0]
    else
      assert a == [a[0]] + a[1..] && b == [b[0]] + b[1..];
      Strcmp(a[1..], b[1..])
  }

  lemma {:induction false} StrcmpFlip(a: seq<byte>, b: seq<byte>)
    ensures Strcmp(a, b) < 0 <==> Strcmp(b, a) > 0
  {
    if a != [] && b != [] && a[0] == b[0] { StrcmpFlip(a[1..], b[1..]); }
  }

  lemma {:induction false} StrcmpOrder(a: seq<byte>, b: seq<byte>, c: seq<byte>)
    requires Strcmp(a, b) < 0 && Strcmp(b, c) < 0
    ensures Strcmp(a, c) < 0
  {
    if a != [] && b != [] && c != [] && a[0] == b[0] == c[0] { StrcmpOrder(a[1..], b[1..], c[1..]); }
  }

  /** The order of names, and of values: by length first. `n` and `m` are the lengths that are compared. */
  function Order(a: seq<byte>, n: int, b: seq<byte>, m: int): int {
    if n != m then n - m else Strcmp(a, b)
  }

  function NameOrder(a: seq<byte>, b: seq<byte>): int {
    Order(a, |a|, b, |b|)
  }

  lemma NameOrderTotal(a: seq<byte>, b: seq<byte>, c: seq<byte>)
    ensures NameOrder(a, b) == 0 <==> a == b
    ensures NameOrder(a, b) < 0 <==> NameOrder(b, a) > 0
    ensures NameOrder(a, b) < 0 && NameOrder(b, c) < 0 ==> NameOrder(a, c) < 0
  {
    StrcmpFlip(a, b);
    if Strcmp(a, b) < 0 && Strcmp(b, c) < 0 { StrcmpOrder(a, b, c); }
  }

  /** hdr_cmp of gen/hpack_static_hdr.c */
  predicate Before(a: Hdr, b: Hdr) {
    NameOrder(a.nam, b.nam) < 0 || (a.nam == b.nam && NameOrder(a.val, b.val) < 0)
  }

  lemma BeforeThen(a: Hdr, b: Hdr, c: Hdr)
    requires Before(a, b) && Before(b, c)
    ensures Before(a, c)
  {
    NameOrderTotal(a.nam, b.nam, c.nam);
    NameOrderTotal(a.val, b.val, c.val);
    hide NameOrder;
  }

  lemma NotBefore(a: Hdr, b: Hdr)
    requires a.nam == b.nam && a.val == b.val
    ensures !Before(a, b)
  {
    NameOrderTotal(a.nam, b.nam, a.nam);
    NameOrderTotal(a.val, b.val, a.val);
    hide NameOrder;
  }

  /** The list is sorted, and it holds the static table. */
  ghost predicate WfHdrs(stat: seq<Entry>, hdrs: seq<Hdr>) {
    && |hdrs| == |stat| == STATIC
    && (forall k :: 0 <= k < |hdrs| ==> 0 < hdrs[k].idx <= STATIC && stat[hdrs[k].idx - 1] == Entry(hdrs[k].nam, hdrs[k].val))
    && (forall e :: e in stat ==> exists k :: 0 <= k < |hdrs| && Entry(hdrs[k].nam, hdrs[k].val) == e)
    && (forall j, k :: 0 <= j < k < |hdrs| ==> Before(hdrs[j], hdrs[k]))
    && (forall k :: 0 <= k < |hdrs| ==> |hdrs[k].nam| < 0x1_0000 && |hdrs[k].val| < 0x1_0000)
  }

  /** Sorting a table without duplicates has one result. */
  lemma {:induction false} SameOrder(stat: seq<Entry>, h: seq<Hdr>, g: seq<Hdr>, n: nat)
    requires WfHdrs(stat, h) && WfHdrs(stat, g) && n <= STATIC
    ensures forall k :: 0 <= k < n ==> h[k].nam == g[k].nam && h[k].val == g[k].val
  {
    hide Before;
    if n > 0 {
      SameOrder(stat, h, g, n - 1);
      SameNext(stat, h, g, n - 1);
    }
  }

  lemma SameNext(stat: seq<Entry>, h: seq<Hdr>, g: seq<Hdr>, n: nat)
    requires WfHdrs(stat, h) && WfHdrs(stat, g) && n < STATIC
    requires forall k :: 0 <= k < n ==> h[k].nam == g[k].nam && h[k].val == g[k].val
    ensures h[n].nam == g[n].nam && h[n].val == g[n].val
  {
    hide Before;
    var x := NotSooner(stat, h, g, n);
    var y := NotSooner(stat, g, h, n);
    if x > n && y > n {
      BeforeBoth(g[n], g[x], h[n], h[y]);
    }
  }

  /** Where the entry `h[n]` is in the other list. */
  lemma NotSooner(stat: seq<Entry>, h: seq<Hdr>, g: seq<Hdr>, n: nat) returns (m: nat)
    requires WfHdrs(stat, h) && WfHdrs(stat, g) && n < STATIC
    requires forall k :: 0 <= k < n ==> h[k].nam == g[k].nam && h[k].val == g[k].val
    ensures n <= m < STATIC && g[m].nam == h[n].nam && g[m].val == h[n].val
  {
    hide Before;
    assert stat[h[n].idx - 1] in stat;
    m :| 0 <= m < |g| && Entry(g[m].nam, g[m].val) == Entry(h[n].nam, h[n].val);
    if m < n { NotBefore(h[m], h[n]); }
  }

  lemma BeforeBoth(a: Hdr, b: Hdr, c: Hdr, d: Hdr)
    requires b.nam == c.nam && b.val == c.val && a.nam == d.nam && a.val == d.val
    ensures !(Before(a, b) && Before(c, d))
  {
    NameOrderTotal(a.nam, b.nam, a.nam);
    NameOrderTotal(a.val, b.val, a.val);
    hide NameOrder;
  }

  /** hpt_cmp: the key is compared by the lengths cut to 16 bits that were stored in it. */
  function HptCmp(nam: seq<byte>, val: seq<byte>, t: Hdr): int {
    var c := Order(nam, |nam| % 0x1_0000, t.nam, |t.nam|);
    if c != 0 then c else Order(val, |val| % 0x1_0000, t.val, |t.val|)
  }

  predicate Same(t: Hdr, nam: seq<byte>, val: seq<byte>) {
    t.nam == nam && t.val == val
  }

  /** An entry that differs from the key rules out all the entries on one side of it. */
  lemma OneSide(stat: seq<Entry>, hdrs: seq<Hdr>, pos: nat, k: nat, nam: seq<byte>, val: seq<byte>)
    requires WfHdrs(stat, hdrs) && pos < |hdrs| && k < |hdrs|
    requires var c := HptCmp(nam, val, hdrs[pos]); (c < 0 && pos <= k) || (c > 0 && k <= pos)
    ensures !Same(hdrs[k], nam, val) && (hdrs[pos].nam != nam ==> hdrs[k].nam != nam)
  {
    var p, t := hdrs[pos], hdrs[k];
    assert p != t ==> if pos < k then Before(p, t) else Before(t, p);
    assert |t.nam| < 0x1_0000 && |t.val| < 0x1_0000;
    hide WfHdrs; hide Strcmp;
    if t.nam == nam {
      NameOrderTotal(nam, p.nam, t.nam);
      NameOrderTotal(p.nam, nam, p.nam);
      if t.val == val {
        NameOrderTotal(val, p.val, t.val);
        NameOrderTotal(p.val, val, p.val);
      }
    }
  }

  /** What comparing the key with one entry tells of all of them. */
  lemma Probed(stat: seq<Entry>, hdrs: seq<Hdr>, pos: nat, nam: seq<byte>, val: seq<byte>)
    requires WfHdrs(stat, hdrs) && pos < STATIC
    ensures var t, c := hdrs[pos], HptCmp(nam, val, hdrs[pos]);
            && 0 < t.idx <= STATIC == |stat| && stat[t.idx - 1] == Entry(t.nam, t.val)
            && (Order(nam, |nam| % 0x1_0000, t.nam, |t.nam|) == 0 <==> t.nam == nam)
            && (c == 0 ==> Same(t, nam, val))
            && (forall k :: 0 <= k < STATIC && ((c < 0 && pos <= k) || (c > 0 && k <= pos)) ==>
                  !Same(hdrs[k], nam, val) && (t.nam != nam ==> hdrs[k].nam != nam))
  {
    forall k | 0 <= k < STATIC && (var c := HptCmp(nam, val, hdrs[pos]); (c < 0 && pos <= k) || (c > 0 && k <= pos))
      ensures !Same(hdrs[k], nam, val) && (hdrs[pos].nam != nam ==> hdrs[k].nam != nam)
    {
      OneSide(stat, hdrs, pos, k, nam, val);
    }
    hide Strcmp; hide Before;
    assert |hdrs[pos].nam| < 0x1_0000;
  }

  /** The list has the entries of the table. */
  lemma Listed(stat: seq<Entry>, hdrs: seq<Hdr>, nam: seq<byte>, val: seq<byte>)
    requires WfHdrs(stat, hdrs)
    ensures Entry(nam, val) in stat ==> exists k :: 0 <= k < STATIC && Same(hdrs[k], nam, val)
    ensures (exists e :: e in stat && e.nam == nam) ==> exists k :: 0 <= k < STATIC && hdrs[k].nam == nam
  {
    hide Before;
    if Entry(nam, val) in stat {
      var k :| 0 <= k < |hdrs| && Entry(hdrs[k].nam, hdrs[k].val) == Entry(nam, val);
      assert Same(hdrs[k], nam, val);
    }
    if e :| e in stat && e.nam == nam {
      var k :| 0 <= k < |hdrs| && Entry(hdrs[k].nam, hdrs[k].val) == e;
      assert hdrs[k].nam == nam;
    }
  }

  /** hpt_bsearch. A search that fails compares the key with some entry of its name, if there is one. */
  method Bsearch(ghost stat: seq<Entry>, hdrs: seq<Hdr>, nam: seq<byte>, val: seq<byte>) returns (r: Res, idx: u16)
    requires WfHdrs(stat, hdrs)
    ensures r == (if Entry(nam, val) in stat then OK else if exists e :: e in stat && e.nam == nam then NAM else IDX)
    ensures r == OK ==> 0 < idx <= STATIC && stat[idx - 1] == Entry(nam, val)
    ensures r == NAM ==> 0 < idx <= STATIC && stat[idx - 1].nam == nam
    ensures r == IDX ==> idx == 0
  {
    StatSize(stat, hdrs);
    Listed(stat, hdrs, nam, val);
    hide WfHdrs; hide HptCmp; hide Order;
    idx := 0;
    var min, max := 0, STATIC - 1;
    while min <= max
      invariant 0 <= min <= max + 1 <= STATIC
      invariant forall k :: 0 <= k < min || max < k < STATIC ==> !Same(hdrs[k], nam, val)
      invariant idx == 0 ==> forall k :: 0 <= k < min || max < k < STATIC ==> hdrs[k].nam != nam
      invariant idx != 0 ==> 0 < idx <= STATIC && stat[idx - 1].nam == nam
      decreases max + 1 - min
    {
      var pos := (min + max) / 2;
      var t := hdrs[pos];
      var cmp := HptCmp(nam, val, t);
      Probed(stat, hdrs, pos, nam, val);
      if Order(nam, |nam| % 0x1_0000, t.nam, |t.nam|) == 0 { idx := t.idx; }
      if cmp == 0 {
        assert stat[t.idx - 1] in stat;
        return OK, idx;
      }
      if cmp < 0 { max := pos - 1; } else { min := pos + 1; }
    }
    if idx != 0 {
      assert stat[idx - 1] in stat;
      return NAM, idx;
    }
    return IDX, idx;
  }

  /** What a search may answer: an entry of that name and value if there is one, else one of that name, else none. */
  ghost predicate Found(stat: seq<Entry>, es: seq<Entry>, nam: seq<byte>, val: seq<byte>, r: Res, idx: u16) {
    var all := stat + es;
    if Entry(nam, val) in all then r == OK && Lookup(stat, es, idx) == Some(Entry(nam, val))
    else if exists e :: e in all && e.nam == nam then r == NAM && Lookup(stat, es, idx).Some? && Lookup(stat, es, idx).value.nam == nam
    else r == IDX && idx == 0
  }

  /** Where an entry of the dynamic table is in the address space. */
  lemma Dynamic(stat: seq<Entry>, es: seq<Entry>, k: nat)
    requires |stat| == STATIC && k < |es|
    ensures Lookup(stat, es, STATIC + k + 1) == Some(es[k])
  {
  }

  /** HPT_search */
  method Search(hp: Hpack, stat: seq<Entry>, hdrs: seq<Hdr>, nam: seq<byte>, val: seq<byte>) returns (r: Res, idx: u16)
    requires hp.Valid() && WfHdrs(stat, hdrs)
    ensures Found(stat, hp.es, nam, val, r, idx)
  {
    hide Hpack.Fits; hide WfHdrs;
    r, idx := Bsearch(stat, hdrs, nam, val);
    assert |stat| == STATIC by { StatSize(stat, hdrs); }
    if r == OK { return; }
    var namIdx: u16 := idx;
    var he, i := 0, 0;
    Small(hp);
    TotalNone(hp.es);
    while i < hp.cnt
      invariant i <= hp.cnt == |hp.es| && he == Total(hp.es[..i]) && hp.Fits() && |hp.es| < 2048
      invariant forall k :: 0 <= k < i ==> hp.es[k] != Entry(nam, val)
      invariant namIdx == 0 ==> forall k :: 0 <= k < i ==> hp.es[k].nam != nam
      invariant namIdx == 0 ==> idx == 0
      invariant namIdx != 0 ==> Lookup(stat, hp.es, namIdx).Some? && Lookup(stat, hp.es, namIdx).value.nam == nam
    {
      var preSz, namSz, valSz := hp.Header(he, i);
      var e, at := hp.Strings(he, i, namSz, valSz);
      Dynamic(stat, hp.es, i);
      if e.nam == nam {
        namIdx := STATIC + i + 1;
        if e.val == val { return OK, namIdx; }
      }
      he := he + 32 + namSz + valSz;
      i := i + 1;
    }
    return if namIdx > 0 then NAM else IDX, namIdx;
  }

  lemma StatSize(stat: seq<Entry>, hdrs: seq<Hdr>)
    requires WfHdrs(stat, hdrs)
    ensures |stat| == |hdrs| == STATIC
  {
  }

  lemma TotalNone(es: seq<Entry>)
    ensures Total(es[..0]) == 0
  {
  }

  lemma Small(hp: Hpack)
    requires hp.Valid()
    ensures hp.Fits() && hp.cnt == |hp.es| < 2048
  {
    TotalAtLeast(hp.es);
  }

  /** hpack_search: without a value, an entry of the empty value is an entry of that name. */
  method HpackSearch(hp: Hpack, stat: seq<Entry>, hdrs: seq<Hdr>, nam: seq<byte>, val: Option<seq<byte>>) returns (r: Res, idx: u16)
    requires hp.Valid() && WfHdrs(stat, hdrs)
    ensures var v := if val.Some? then val.value else [];
            Found(stat, hp.es, nam, v, if r == NAM && val.None? && Entry(nam, []) in stat + hp.es then OK else r, idx)
    ensures val.None? ==> r != OK
  {
    r, idx := Search(hp, stat, hdrs, nam, if val.Some? then val.value else []);
    if r == OK && val.None? { r := NAM; }
  }
}

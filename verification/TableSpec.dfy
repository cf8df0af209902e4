/** The dynamic table of RFC 7541 as a sequence of entries, newest first, and the size limits that drive eviction. */
module TableSpec {
  import opened Common
  import opened Validate

  datatype Entry = Entry(nam: seq<byte>, val: seq<byte>)

  /** Section 4.1 of RFC 7541: 32 octets of overhead for each entry. */
  function EntrySize(e: Entry): (n: nat)
    ensures n >= 32
  {
    32 + |e.nam| + |e.val|
  }

  function Total(es: seq<Entry>): nat {
    if es == [] then 0 else EntrySize(es[0]) + Total(es[1..])
  }

  lemma {:induction false} TotalAppend(a: seq<Entry>, b: seq<Entry>)
    ensures Total(a + b) == Total(a) + Total(b)
  {
    if a == [] {
      assert a + b == b;
    } else {
      assert (a + b)[1..] == a[1..] + b;
      TotalAppend(a[1..], b);
    }
  }

  lemma TotalLast(es: seq<Entry>)
    requires es != []
    ensures Total(es) == Total(es[..|es| - 1]) + EntrySize(es[|es| - 1])
  {
    var l := [es[|es| - 1]];
    assert es == es[..|es| - 1] + l;
    TotalAppend(es[..|es| - 1], l);
    assert l[1..] == [];
  }

  lemma {:induction false} TotalAtLeast(es: seq<Entry>)
    ensures Total(es) >= 32 * |es|
  {
    if es != [] { TotalAtLeast(es[1..]); }
  }

  /** The limits of `struct hpack_size`; the soft limit of an encoder (`cap`) is not part of this model. */
  datatype Size = Size(max: nat, lim: int, nxt: int, min: int)

  /** HPACK_LIMIT */
  function Limit(sz: Size): nat {
    if sz.lim >= 0 then sz.lim else sz.max
  }

  /** What hpack_resize, updates and evictions keep. */
  predicate WfSize(sz: Size) {
    && (sz.nxt < 0 <==> sz.min < 0)
    && -1 <= sz.min <= sz.nxt < 0x1_0000
    && -1 <= sz.lim <= sz.max < 0x1_0000
  }

  /** hpack_resize: the last maximum asked for, and the least one since the previous block. */
  function Resized(s: Size, len: u16): Size {
    s.(nxt := len, min := if s.min < 0 || s.min > len then len else s.min)
  }

  /** HPT_adjust: oldest entries go while the requested length is over the limit. */
  function Evict(es: seq<Entry>, len: int, lim: nat): (r: seq<Entry>)
    ensures |r| <= |es| && r == es[..|r|]
  {
    if es == [] || len <= lim then es
    else Evict(es[..|es| - 1], len - EntrySize(es[|es| - 1]), lim)
  }

  /** HPT_index on the abstract table. */
  function Insert(es: seq<Entry>, e: Entry, lim: nat): seq<Entry> {
    var r := Evict(es, Total(es) + EntrySize(e), lim);
    if EntrySize(e) <= lim then [e] + r else r
  }

  /** Eviction is minimal: what is left fits (or nothing is left), and any longer prefix would not fit. */
  lemma {:induction false} EvictMinimal(es: seq<Entry>, len: int, lim: nat)
    ensures var r := Evict(es, len, lim);
            && (r == [] || len - (Total(es) - Total(r)) <= lim)
            && (forall n :: |r| < n <= |es| ==> len - (Total(es) - Total(es[..n])) > lim)
  {
    var r := Evict(es, len, lim);
    if es == [] || len <= lim {
    } else {
      var l := |es| - 1;
      TotalLast(es);
      EvictMinimal(es[..l], len - EntrySize(es[l]), lim);
      assert es[..|es|] == es;
      forall n | |r| < n <= |es|
        ensures len - (Total(es) - Total(es[..n])) > lim
      {
        if n < |es| { assert es[..l][..n] == es[..n]; }
      }
    }
  }

  lemma InsertBounded(es: seq<Entry>, e: Entry, lim: nat)
    ensures Total(Insert(es, e, lim)) <= lim
    ensures EntrySize(e) > lim ==> Insert(es, e, lim) == []
  {
    var len := Total(es) + EntrySize(e);
    var r := Evict(es, len, lim);
    EvictMinimal(es, len, lim);
    if EntrySize(e) <= lim {
      TotalAppend([e], r);
      assert [e][1..] == [];
      assert Total([e]) == EntrySize(e);
    }
  }

  lemma EvictBounded(es: seq<Entry>, lim: nat)
    ensures Total(Evict(es, Total(es), lim)) <= lim
  {
    EvictMinimal(es, Total(es), lim);
  }

  /** Evicting for a limit that already holds does nothing. */
  lemma EvictNothing(es: seq<Entry>, len: int, lim: nat)
    requires len <= lim
    ensures Evict(es, len, lim) == es
  {}

  /** What every stored entry satisfies: its strings passed HPV_token and HPV_value. */
  predicate Good(e: Entry) {
    |e.nam| > 0 && Token(e.nam) == OK && ValueOk(e.val)
  }

  predicate AllGood(es: seq<Entry>) {
    forall e :: e in es ==> Good(e)
  }

  const STATIC: nat := 61

  /** HPT_field: the entry at an index of the address space, static entries first. */
  function Lookup(stat: seq<Entry>, es: seq<Entry>, idx: nat): Option<Entry> {
    if idx == 0 then None
    else if idx <= |stat| then Some(stat[idx - 1])
    else if idx - |stat| <= |es| then Some(es[idx - |stat| - 1])
    else None
  }

  // ---- events ----

  datatype Event =
    | FieldEvt(idx: nat)
    | NeverEvt
    | NameEvt(nam: seq<byte>)
    | ValueEvt(val: seq<byte>)
    | EvictEvt(n: nat)
    | IndexEvt(sz: nat)
    | TableEvt(lim: nat)
    | DataEvt(octets: seq<byte>)

  /** A table, its limits, the events sent to the user, and whether they are silenced (HPACK_CTX_TOO_BIG). */
  datatype Tab = Tab(es: seq<Entry>, sz: Size, evs: seq<Event>, tooBig: bool)

  /** HPC_notify: silent once a field had to be discarded. */
  function Note(t: Tab, e: Event): Tab {
    if t.tooBig then t else t.(evs := t.evs + [e])
  }

  /** HPT_adjust with its event. */
  function Adjust(t: Tab, len: nat): Tab {
    var r := Evict(t.es, len, Limit(t.sz));
    if |r| < |t.es| then Note(t.(es := r), EvictEvt(|t.es| - |r|)) else t
  }

  /** HPT_index with its events. */
  function Index(t: Tab, e: Entry): Tab {
    var t1 := Adjust(t, Total(t.es) + EntrySize(e));
    if EntrySize(e) <= Limit(t.sz) then Note(t1.(es := [e] + t1.es), IndexEvt(EntrySize(e))) else t1
  }

  lemma AdjustEs(t: Tab, len: nat)
    ensures var r := Adjust(t, len); r == t.(es := r.es, evs := r.evs) && r.es == Evict(t.es, len, Limit(t.sz))
  {
  }

  lemma IndexInv(t: Tab, e: Entry)
    requires AllGood(t.es) && Good(e)
    ensures var r := Index(t, e);
            && r == t.(es := r.es, evs := r.evs)
            && AllGood(r.es)
            && r.es == Insert(t.es, e, Limit(t.sz))
            && Total(r.es) <= Limit(t.sz)
  {
    hide Good;
    AdjustEs(t, Total(t.es) + EntrySize(e));
    InsertBounded(t.es, e, Limit(t.sz));
  }
}

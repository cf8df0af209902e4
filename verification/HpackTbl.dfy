/** The codec table of `struct hpack` and the operations of lib/hpack_tbl.c that read and change it. */
module HpackTbl {
  import opened Common
  import opened Validate
  import opened TableSpec
  import opened TableBytes
  import opened Aliasing

  /** What a monitor reports for an index it cannot know (`hpt_unknown_field`). */
  function Unknown(): Entry {
    Entry(Ascii("<unknown name>"), Ascii("<unknown value>"))
  }

  /** HPT_field, with the case of monitors. */
  function LookupMon(mon: bool, stat: seq<Entry>, es: seq<Entry>, idx: nat): Option<Entry> {
    if mon && idx > |stat| + |es| then Some(Unknown()) else Lookup(stat, es, idx)
  }

  /** Forgetting the oldest entry, and going back to the one stored before it. */
  lemma EvictStep(t: seq<byte>, l: nat, es: seq<Entry>, he: nat, preSz: nat)
    requires l <= |t| && IsTable(t[..l], es, 0) && es != [] && AllGood(es)
    requires he == Total(es[..|es| - 1]) && preSz == Before(es, |es| - 1, 0)
    ensures var k := |es| - 1;
            && he <= l && he + EntrySize(es[k]) == Total(es)
            && IsTable(t[..he], es[..k], 0) && AllGood(es[..k])
            && (k > 0 ==> preSz <= he && he - preSz == Total(es[..k][..k - 1]))
            && (k == 0 ==> preSz == 0)
            && (forall len: int, lim: nat :: len > lim ==> Evict(es, len, lim) == Evict(es[..k], len - EntrySize(es[k]), lim))
  {
    hide IsTable; hide Good; hide Total;
    var k := |es| - 1;
    TableTake(t[..l], es, 0, k);
    assert t[..l][..he] == t[..he];
    TotalLast(es);
    if k > 0 {
      TotalLast(es[..k]);
      assert es[..k][k - 1] == es[k - 1];
    }
  }

  lemma EvictDone(es: seq<Entry>, len: int, lim: nat)
    requires es == [] || len <= lim
    ensures Evict(es, len, lim) == es
  {
  }

  lemma Cons(e: Entry, es: seq<Entry>)
    ensures Total([e] + es) == EntrySize(e) + Total(es)
    ensures Good(e) && AllGood(es) ==> AllGood([e] + es)
  {
    assert ([e] + es)[1..] == es;
  }

  /** What HPT_index asks of a name that it takes from the table; nothing of the others. */
  predicate Insertable(es: seq<Entry>, lim: nat, e: Entry, at: Option<nat>) {
    at.Some? && EntrySize(e) <= lim ==> AliasSafe(e.nam, Evict(es, Total(es) + EntrySize(e), lim))
  }

  lemma OutsideInsertable(es: seq<Entry>, lim: nat, e: Entry)
    ensures Insertable(es, lim, e, None)
  {
  }

  /** The two paths of HPT_index lay out the new table: always, and when the name is safe. */
  lemma Inserted(m: seq<byte>, e: Entry, es: seq<Entry>, l: nat, at: Option<nat>)
    requires EntrySize(e) + l <= |m| < 0x1_0000 && IsTable(m[..l], es, 0) && Good(e)
    requires at.Some? ==> HEADER <= at.value && at.value + |e.nam| + 1 <= |m|
                          && m[at.value..at.value + |e.nam| + 1] == e.nam + [0]
    ensures var r := if at.Some? then AliasedInsert(m, at.value, e, l) else PlainInsert(m, e, l);
            IsTable(r[..EntrySize(e) + l], [e] + es, 0) <==> (at.Some? ==> AliasSafe(e.nam, es))
  {
    NoNul(e.nam, e.val);
    hide Token; hide ValueOk; hide IsTable; hide AliasSafe; hide AliasedInsert; hide PlainInsert;
    if at.Some? {
      AliasedInsertExact(m, at.value, e, es, l);
    } else {
      PlainInsertCorrect(m, e, es, l);
    }
  }

  class Hpack {
    const mon: bool
    var sz: Size
    var mem: nat
    var len: nat
    var cnt: nat
    var tbl: array<byte>
    var tooBig: bool
    /** The events passed to the callback. */
    var evs: seq<Event>
    /** The abstract table. */
    ghost var es: seq<Entry>

    ghost function State(): Tab
      reads `es, `sz, `evs, `tooBig
    {
      Tab(es, sz, evs, tooBig)
    }

    ghost predicate Valid()
      reads `sz, `mem, `len, `cnt, `tbl, `es, tbl
    {
      && Fits()
      && len <= Limit(sz)
    }

    /** Everything but the length being under the limit, which changes of limit break for a while. */
    ghost predicate Fits()
      reads `sz, `mem, `len, `cnt, `tbl, `es, tbl
    {
      && tbl.Length == mem < 0x1_0000
      && WfSize(sz) && sz.max <= mem && sz.nxt <= mem
      && cnt == |es| && len == Total(es) <= mem
      && IsTable(tbl[..len], es, 0)
      && AllGood(es)
    }

    /** Over any run of resizes and decoded blocks: what is stored fits in the limits, and the limits in the memory. */
    lemma InBounds()
      requires Valid()
      ensures len == Total(es) <= Limit(sz) <= sz.max <= mem == tbl.Length && cnt == |es| && 32 * cnt <= len
    {
      TotalAtLeast(es);
      hide Total; hide IsTable; hide AllGood;
    }

    /** hpack_new */
    constructor (mem: nat, max: nat, mon: bool)
      requires max <= mem < 0x1_0000
      ensures Valid() && fresh(tbl) && this.mon == mon && this.mem == mem
      ensures State() == Tab([], Size(max, -1, -1, -1), [], false)
    {
      this.mon := mon;
      sz := Size(max, -1, -1, -1);
      this.mem, len, cnt := mem, 0, 0;
      tbl := new byte[mem](i => 0);
      tooBig, es, evs := false, [], [];
    }

    /** hpack_realloc, when the allocator provides the memory. */
    method Realloc(mem: nat)
      requires Valid() && mem < 0x1_0000
      modifies this`mem, this`tbl
      ensures Valid() && this.mem == (if mem <= old(this.mem) then old(this.mem) else mem) && State() == old(State())
      ensures tbl == old(tbl) || fresh(tbl)
    {
      if mem <= this.mem { return; }
      var t := new byte[mem](i => 0);
      MemCpy(t, 0, tbl[..]);
      assert t[..len] == tbl[..len];
      tbl, this.mem := t, mem;
    }

    /** hpack_resize, past its checks: false is HPACK_RES_LEN. */
    method Resize(length: nat) returns (ok: bool)
      requires Valid()
      modifies this`mem, this`tbl, this`sz
      ensures ok <==> length < 0x1_0000
      ensures Valid() && State() == if ok then old(State()).(sz := Resized(old(sz), length)) else old(State())
      ensures mem == if !ok || length <= old(mem) then old(mem) else length
      ensures tbl == old(tbl) || fresh(tbl)
    {
      if length > 0xffff { return false; }
      Realloc(length);
      sz := Resized(sz, length);
      return true;
    }

    /** HPC_notify */
    method Notify(e: Event)
      modifies this`evs
      ensures State() == Note(old(State()), e)
    {
      if !tooBig { evs := evs + [e]; }
    }

    /** The first 20 octets of the entry at `he`: what is copied to a `struct hpt_entry`. */
    method Header(he: nat, ghost k: nat) returns (preSz: nat, namSz: nat, valSz: nat)
      requires Fits() && k < cnt && he == Total(es[..k])
      ensures he + EntrySize(es[k]) <= len && preSz == Before(es, k, 0)
      ensures namSz == |es[k].nam| && valSz == |es[k].val|
      ensures Total(es[..k + 1]) == he + EntrySize(es[k])
    {
      hide IsTable; hide AllGood; hide Total; hide LeVal;
      ghost var t := tbl[..];
      assert t[..len] == tbl[..len];
      HeaderAt(t, len, es, k);
      assert tbl[he + 8..he + 16] == t[he + 8..he + 16];
      assert tbl[he + 16..he + 18] == t[he + 16..he + 18];
      assert tbl[he + 18..he + 20] == t[he + 18..he + 20];
      preSz := LeVal(tbl[he + 8..he + 16]);
      namSz := LeVal(tbl[he + 16..he + 18]);
      valSz := LeVal(tbl[he + 18..he + 20]);
    }

    /** hpt_dynamic: the offset of an entry, by a walk from the newest one. */
    method Dynamic(idx: nat) returns (he: nat)
      requires Fits() && 0 < idx <= cnt
      ensures he == Total(es[..idx - 1])
    {
      var i, off := idx, 0;
      he := 0;
      while true
        invariant 0 < i <= idx
        invariant he == Total(es[..idx - i]) && off == Before(es, idx - i, 0)
        decreases i
      {
        var preSz, namSz, valSz := Header(he, idx - i);
        assert preSz == off;
        i := i - 1;
        if i == 0 { return; }
        off := 32 + namSz + valSz;
        he := he + off;
      }
    }

    /** The strings of an entry, and the offset of its name. */
    method Strings(he: nat, ghost k: nat, namSz: nat, valSz: nat) returns (e: Entry, at: nat)
      requires Fits() && k < cnt && he == Total(es[..k])
      requires namSz == |es[k].nam| && valSz == |es[k].val|
      ensures e == es[k] && at == he + HEADER && at + |e.nam| + 1 <= len && tbl[at..at + |e.nam| + 1] == e.nam + [0]
    {
      hide IsTable; hide AllGood; hide Total;
      ghost var t := tbl[..];
      assert t[..len] == tbl[..len];
      StringsAt(t, len, es, k);
      at := he + HEADER;
      var v := at + namSz + 1;
      e := Entry(tbl[at..at + namSz], tbl[v..v + valSz]);
      assert tbl[at..v] == t[at..v] && e.nam == t[at..v - 1] && e.val == t[v..v + valSz];
    }

    /** HPT_field: an entry of either table; `at` is where the name stands in the dynamic one. */
    method Field(stat: seq<Entry>, idx: nat) returns (hf: Option<Entry>, at: Option<nat>)
      requires Fits() && |stat| == STATIC && idx > 0
      ensures hf == LookupMon(mon, stat, es, idx)
      ensures at.Some? <==> STATIC < idx <= STATIC + cnt
      ensures at.Some? ==>
                && HEADER <= at.value && at.value + |hf.value.nam| + 1 <= len
                && tbl[at.value..at.value + |hf.value.nam| + 1] == hf.value.nam + [0]
    {
      if idx <= STATIC { return Some(stat[idx - 1]), None; }
      var i := idx - STATIC;
      if mon && i > cnt { return Some(Unknown()), None; }
      if i > cnt { return None, None; }
      var he := Dynamic(i);
      var preSz, namSz, valSz := Header(he, i - 1);
      var e, o := Strings(he, i - 1, namSz, valSz);
      return Some(e), Some(o);
    }

    /** HPT_adjust: evict the oldest entries while a table of `length` octets is over the limit. */
    method Adjust(length: nat)
      requires Fits() && length >= len
      modifies this`len, this`cnt, this`es, this`evs
      ensures Fits() && State() == TableSpec.Adjust(old(State()), length)
    {
      hide IsTable; hide AllGood; hide Total; hide Evict;
      if cnt == 0 {
        EvictDone([], length, Limit(sz));
        return;
      }
      var he := Dynamic(cnt);
      var lim, l, n := Limit(sz), length, 0;
      ghost var es0 := es;
      while cnt > 0 && l > lim
        invariant Fits() && len <= l
        invariant cnt <= |es0| && es == es0[..cnt] && n == |es0| - cnt
        invariant cnt > 0 ==> he == Total(es[..cnt - 1])
        invariant Evict(es, l, lim) == Evict(es0, length, lim)
        invariant evs == old(evs)
        decreases cnt
      {
        ghost var k := cnt - 1;
        var preSz, namSz, valSz := Header(he, k);
        assert tbl[..][..len] == tbl[..len] && tbl[..][..he] == tbl[..he];
        EvictStep(tbl[..], len, es, he, preSz);
        l := l - (32 + namSz + valSz);
        len := len - (32 + namSz + valSz);
        cnt := cnt - 1;
        es := es[..k];
        he := he - preSz;
        n := n + 1;
      }
      EvictDone(es, l, lim);
      if n > 0 { Notify(EvictEvt(n)); }
    }

    /** New limits, and the evictions they ask for. */
    method SetLimits(s: Size)
      requires Fits() && WfSize(s) && s.max <= mem && s.nxt <= mem
      modifies this`sz, this`len, this`cnt, this`es, this`evs
      ensures Valid() && State() == TableSpec.Adjust(old(State()).(sz := s), Total(old(es)))
    {
      hide IsTable; hide AllGood; hide Evict;
      EvictBounded(es, Limit(s));
      AdjustEs(State().(sz := s), Total(es));
      hide Total;
      sz := s;
      Adjust(len);
    }

    /** hpt_fit */
    method Fit(length: nat) returns (fit: bool)
      requires Valid()
      modifies this`len, this`cnt, this`es, this`evs
      ensures Valid() && State() == TableSpec.Adjust(old(State()), old(len) + length)
      ensures fit <==> length <= Limit(sz)
      ensures fit ==> len + length <= Limit(sz)
    {
      EvictMinimal(es, len + length, Limit(sz));
      Adjust(len + length);
      if length > Limit(sz) { return false; }
      return true;
    }

    lemma FitsIn()
      requires Valid()
      ensures len <= Limit(sz) <= mem == tbl.Length
    {
    }

    /** hpt_move_evicted: the name, at `nam`, is in the table that is about to move. */
    method MoveEvicted(nam: nat, namSz: nat, length: nat)
      requires tbl.Length == mem && length + len <= mem && HEADER + namSz + 1 < length && nam + namSz + 1 <= mem
      modifies tbl
      ensures tbl[..] == Move(Passes(old(tbl[..]), 0, nam, namSz + 1, len), length, namSz + 1, len)
    {
      hide IsTable; hide AllGood; hide Total; hide Blit; hide Move;
      var tblPtr, namPtr, left, src, rest := 0, HEADER, namSz + 1, nam, length;
      ghost var m := Passes(tbl[..], 0, nam, namSz + 1, len);
      while left > 0
        invariant 0 <= tblPtr && 0 <= left && 0 <= src && 0 <= rest
        invariant tblPtr + left == namSz + 1 && src + left == nam + namSz + 1 && rest + tblPtr == length
        invariant m == Passes(tbl[..], tblPtr, src, left, len)
        decreases left
      {
        var z := if left < CHUNK then left else CHUNK;
        var tmp := tbl[src..src + z];
        assert tmp == tbl[..][src..src + z];
        MemMove(tbl, tblPtr + z, tblPtr, len);
        MemCpy(tbl, namPtr, tmp);
        rest := rest - z;
        src := src + z;
        left := left - z;
        tblPtr := tblPtr + z;
      }
      MemMove(tbl, tblPtr + rest, tblPtr, len);
    }

    /** Where a string to insert comes from: out of the table, or at an offset in it. */
    ghost predicate Source(nam: seq<byte>, at: Option<nat>)
      reads this, tbl
    {
      at.Some? ==> HEADER <= at.value && at.value + |nam| + 1 <= len <= tbl.Length
                   && tbl[at.value..at.value + |nam| + 1] == nam + [0]
    }

    /** The part of HPT_index that writes to the table, once the entry is known to fit. */
    method Write(nam: seq<byte>, at: Option<nat>, val: seq<byte>, length: nat)
      requires Fits() && length == EntrySize(Entry(nam, val)) && length + len <= mem
      requires at.Some? ==> at.value + |nam| + 1 <= mem
      modifies tbl
      ensures var e := Entry(nam, val);
              tbl[..] == if at.Some? then AliasedInsert(old(tbl[..]), at.value, e, len) else PlainInsert(old(tbl[..]), e, len)
    {
      hide IsTable; hide AllGood; hide Passes; hide Blit; hide Le;
      var namSz, valSz := |nam|, |val|;
      MemCpy(tbl, 8, Le(length, 8));
      if at.Some? {
        MoveEvicted(at.value, namSz, length);
      } else {
        if cnt > 0 { MemMove(tbl, length, 0, len); } else { MoveNothing(tbl[..], length, 0); }
        MemCpy(tbl, HEADER, nam + [0]);
      }
      ghost var m, e := tbl[..], Entry(nam, val);
      assert (if at.Some? then AliasedInsert(old(tbl[..]), at.value, e, len) else PlainInsert(old(tbl[..]), e, len)) == Complete(m, e);
      MemCpy(tbl, HEADER + namSz + 1, val + [0]);
      MemCpy(tbl, 0, Le(MAGIC, 4));
      MemCpy(tbl, 8, Le(0, 8));
      MemCpy(tbl, 16, Le(namSz, 2));
      MemCpy(tbl, 18, Le(valSz, 2));
    }

    /** The second half of HPT_index: the entry fits. */
    method Enter(nam: seq<byte>, at: Option<nat>, val: seq<byte>, length: nat)
      requires Valid() && Good(Entry(nam, val)) && length == EntrySize(Entry(nam, val)) && length + len <= Limit(sz)
      requires at.Some? ==> HEADER <= at.value && at.value + |nam| + 1 <= mem && tbl[at.value..at.value + |nam| + 1] == nam + [0]
      modifies this`len, this`cnt, this`es, this`evs, tbl
      ensures State() == Note(old(State()).(es := [Entry(nam, val)] + old(es)), IndexEvt(length))
      ensures Valid() <==> (at.Some? ==> AliasSafe(nam, old(es)))
    {
      hide IsTable; hide AllGood; hide Good; hide Total; hide AliasSafe; hide AliasedInsert; hide PlainInsert;
      ghost var m, l, e := tbl[..], len, Entry(nam, val);
      assert m[..l] == tbl[..l];
      assert at.Some? ==> m[at.value..at.value + |nam| + 1] == tbl[at.value..at.value + |nam| + 1];
      Write(nam, at, val, length);
      Inserted(m, e, es, l, at);
      assert tbl[..length + l] == tbl[..][..length + l];
      Cons(e, es);
      len := len + length;
      cnt := cnt + 1;
      es := [e] + es;
      Notify(IndexEvt(length));
    }

    /**
     HPT_index: the newest entry, in front of what is left once the oldest ones made room. The memory is that table
     exactly when the entry is insertable.
     */
    method Index(nam: seq<byte>, at: Option<nat>, val: seq<byte>)
      requires Valid() && Good(Entry(nam, val)) && Source(nam, at)
      modifies this`len, this`cnt, this`es, this`evs, tbl
      ensures State() == TableSpec.Index(old(State()), Entry(nam, val))
      ensures Valid() <==> Insertable(old(es), Limit(sz), Entry(nam, val), at)
    {
      hide IsTable; hide Good; hide Total; hide Evict; hide AliasSafe;
      AdjustEs(State(), len + EntrySize(Entry(nam, val)));
      var length := 32 + |nam| + |val|;
      assert len == Total(es);
      hide Fits; hide AllGood;
      var fit := Fit(length);
      if !fit { return; }
      FitsIn();
      Enter(nam, at, val, length);
    }
  }
}

/**
 The encoder and its peer. Both are resized out of band by the same calls; the encoder announces the changes at the start
 of its next block (section 4.2 of RFC 7541), then writes fields; the decoder reads the blocks.
 */
module Protocol {
  import opened Common
  import opened Bits
  import opened HuffmanCode
  import opened IntSpec
  import opened Validate
  import opened TableSpec
  import opened DecoderSpec
  import opened DecoderScan
  import opened DecoderBlock
  import opened DecoderEvents
  import opened DecoderVerdicts
  import opened EncoderSpec
  import opened WireScan
  import opened Lockstep

  /** The table of an encoder without soft limit. */
  datatype Enc = Enc(es: seq<Entry>, sz: Size)

  /** Equal tables under equal limits, with the same resizes to come. */
  ghost predicate InStep(e: Enc, d: Dec) {
    && d.t.es == e.es
    && d.t.sz == e.sz.(lim := d.t.sz.lim)
    && Limit(d.t.sz) == Limit(e.sz)
    && e.sz.lim < 0
    && !d.t.tooBig
  }

  // ---- resizes ----

  /** The updates that hpack_encode writes at the start of a block. */
  function Announced(s: Size): seq<Instr>
    requires WfSize(s)
  {
    if s.min < 0 then [] else if s.min < s.nxt then [Upd(s.min), Upd(s.nxt)] else [Upd(s.nxt)]
  }

  /** What they do to the encoder. */
  function Settled(e: Enc): Enc
    requires WfSize(e.sz)
  {
    if e.sz.min < 0 then e else Enc(Evict(e.es, Total(e.es), e.sz.min), Size(e.sz.nxt, -1, -1, -1))
  }

  /** Several hpack_resize calls between two blocks. */
  function Resizes(s: Size, lens: seq<u16>): Size {
    if lens == [] then s else Resized(Resizes(s, lens[..|lens| - 1]), lens[|lens| - 1])
  }

  /** The updates are none, the last maximum, or the least one and the last one. */
  lemma {:induction false} ResizesAnnounced(s: Size, lens: seq<u16>)
    requires WfSize(s) && s.min < 0
    ensures var r := Resizes(s, lens);
            && WfSize(r) && r.max == s.max && r.lim == s.lim
            && (lens == [] ==> r == s && Announced(r) == [])
            && (lens != [] ==>
                 && r.nxt == lens[|lens| - 1] && r.min in lens && (forall l :: l in lens ==> r.min <= l)
                 && Announced(r) == if r.min < r.nxt then [Upd(r.min), Upd(r.nxt)] else [Upd(r.nxt)])
  {
    if lens != [] {
      var a, l := lens[..|lens| - 1], lens[|lens| - 1];
      ResizesAnnounced(s, a);
      assert Resizes(s, lens) == Resized(Resizes(s, a), l);
      hide Resizes;
      Members(lens, a, l);
    }
  }

  lemma Members(lens: seq<u16>, a: seq<u16>, l: u16)
    requires lens != [] && a == lens[..|lens| - 1] && l == lens[|lens| - 1]
    ensures l in lens && forall x :: x in lens <==> x in a || x == l
  {
    assert lens == a + [l];
  }

  /** The two announcements can be accepted: the first one is checked against the old maximum. */
  predicate Acceptable(s: Size) {
    s.min < 0 || s.min == s.nxt || s.min <= s.max
  }

  /** What is reported to the user: names and values, in pairs. */
  function Reported(evs: seq<Event>): seq<Entry> {
    if evs == [] then []
    else
      var n := |evs| - 1;
      if evs[n].ValueEvt? && n > 0 && evs[n - 1].NameEvt? then Reported(evs[..n - 1]) + [Entry(evs[n - 1].nam, evs[n].val)]
      else Reported(evs[..n])
  }

  lemma OtherReported(evs: seq<Event>, e: Event)
    requires !e.ValueEvt?
    ensures Reported(evs + [e]) == Reported(evs)
  {
    assert (evs + [e])[..|evs|] == evs;
  }

  lemma PairReported(evs: seq<Event>, nam: seq<byte>, val: seq<byte>)
    ensures Reported(evs + [NameEvt(nam)] + [ValueEvt(val)]) == Reported(evs) + [Entry(nam, val)]
  {
    var w := evs + [NameEvt(nam)] + [ValueEvt(val)];
    assert w[..|w| - 2] == evs;
  }

  lemma AdjustReported(t: Tab, len: nat)
    ensures Reported(Adjust(t, len).evs) == Reported(t.evs)
  {
    hide Evict; hide Reported;
    OtherReported(t.evs, EvictEvt(|t.es| - |Evict(t.es, len, Limit(t.sz))|));
  }

  // ---- what is reported, item by item ----

  /** The items of the updates at the start of a block. */
  function AnnouncedItems(e: Enc): seq<Item>
    requires WfSize(e.sz)
  {
    var s := e.sz;
    if s.min < 0 then []
    else
      var n := |e.es| - |Evict(e.es, Total(e.es), s.min)|;
      if s.min < s.nxt then [UpdateItem(n, s.min), UpdateItem(0, s.nxt)] else [UpdateItem(n, s.nxt)]
  }

  /** The item of a field that meets the entries `es` under the limit `lim`. */
  function ItemOf(stat: seq<Entry>, es: seq<Entry>, lim: nat, i: Instr): Item {
    var f := Meant(stat, es, i);
    match i
    case Idx(v) => IndexedItem(v, f.nam, f.val)
    case Lit(k, _, _) =>
      if k == Dyn then DynamicItem(f.nam, f.val, |es| - |Evict(es, Total(es) + EntrySize(f), lim)|, EntrySize(f) <= lim)
      else PlainItem(k == Nvr, f.nam, f.val)
    case Upd(v) => UpdateItem(0, v)
  }

  lemma {:induction false} EventsAppend(a: seq<Item>, b: seq<Item>)
    ensures Events(a + b) == Events(a) + Events(b)
  {
    hide ItemEvents;
    if b == [] {
      assert a + b == a && Events(a) + [] == Events(a);
    } else {
      var b', x := b[..|b| - 1], b[|b| - 1];
      assert (a + b)[..|a + b| - 1] == a + b';
      EventsAppend(a, b');
      assert Events(a) + Events(b') + ItemEvents(x) == Events(a) + (Events(b') + ItemEvents(x));
    }
  }

  lemma EventsOne(x: Item)
    ensures Events([x]) == ItemEvents(x)
  {
    hide ItemEvents;
    assert [x][..0] == [] && [] + ItemEvents(x) == ItemEvents(x);
  }

  /** Updates report no field. */
  lemma ObeyedReported(evs: seq<Event>, n: nat, v: nat)
    ensures Reported(evs + (if n > 0 then [EvictEvt(n)] else []) + [TableEvt(v)]) == Reported(evs)
  {
    hide Reported;
    OtherReported(evs, EvictEvt(n));
    assert evs + [] == evs;
    OtherReported(evs + if n > 0 then [EvictEvt(n)] else [], TableEvt(v));
  }

  lemma ObeyedItem(d: Dec, v: u16, sz: Size, more: bool, o: Out)
    requires Obeyed(d, v, sz, more, o) && !d.t.tooBig
    ensures var n := |d.t.es| - |o.d.t.es|; n >= 0 && o.d.t.evs == d.t.evs + ItemEvents(UpdateItem(n, v))
    ensures Reported(o.d.t.evs) == Reported(d.t.evs)
  {
    hide Reported; hide Evict; hide Total;
    var n := |d.t.es| - |o.d.t.es|;
    ObeyedReported(d.t.evs, n, v);
    assert d.t.evs + Evicted(n) + [TableEvt(v)] == d.t.evs + (Evicted(n) + [TableEvt(v)]);
  }

  /** The announcements of the encoder are accepted, with the same evictions, exactly when they are acceptable. */
  lemma AnnounceWire(env: Env, d: Dec, e: Enc, rest: seq<byte>) returns (d': Dec)
    requires WfCode(env.code) && Inv(d) && !MidField(d) && d.canUpd && InStep(e, d) && WfSize(e.sz)
    ensures var o := FeedAll(env, Run(d), Wires(env.code, Announced(e.sz)) + rest);
            if Acceptable(e.sz) then o == FeedAll(env, Run(d'), rest) else o.Fail? && o.res == LEN
    ensures Acceptable(e.sz) ==>
              && Inv(d') && !MidField(d') && d'.t.sz.nxt < 0 && InStep(Settled(e), d')
              && d'.done == d.done && d'.cap == d.cap && Reported(d'.t.evs) == Reported(d.t.evs)
              && d'.t.evs == d.t.evs + Events(AnnouncedItems(e))
  {
    var z, c := e.sz, env.code;
    hide Inv; hide FeedAll; hide WfCode; hide Number; hide Evict; hide Reported; hide Total; hide Events; hide ItemEvents;
    FeedNothing(env);
    d' := d;
    if z.min < 0 {
      assert Wires(c, []) + rest == rest;
      NoEvents(d.t.evs);
    } else if z.min == z.nxt {
      WiresOne(c, Upd(z.nxt), rest);
      var o := UpdateExact(env, d, z.nxt, rest);
      d' := o.d;
      ObeyedItem(d, z.nxt, d'.t.sz, false, o);
      EventsOne(UpdateItem(|d.t.es| - |d'.t.es|, z.nxt));
    } else {
      var more := Number(Upd(z.nxt)) + rest;
      WiresTwo(c, Upd(z.min), Upd(z.nxt), rest);
      var o := UpdateExact(env, d, z.min, more);
      if z.min <= z.max {
        ObeyedItem(d, z.min, o.d.t.sz, true, o);
        var q := UpdateExact(env, o.d, z.nxt, rest);
        d' := q.d;
        ObeyedItem(o.d, z.nxt, d'.t.sz, false, q);
        EvictBounded(e.es, z.min);
        EvictNothing(o.d.t.es, Total(o.d.t.es), z.nxt);
        var x, y := UpdateItem(|d.t.es| - |o.d.t.es|, z.min), UpdateItem(0, z.nxt);
        TwoEvents(d.t.evs, x, y);
      }
    }
  }

  lemma NoEvents(evs: seq<Event>)
    ensures evs + Events([]) == evs
  {
  }

  lemma EventsJoin(evs: seq<Event>, a: seq<Item>, b: seq<Item>)
    ensures evs + Events(a) + Events(b) == evs + Events(a + b)
  {
    EventsAppend(a, b);
    hide Events;
    assert evs + Events(a) + Events(b) == evs + (Events(a) + Events(b));
  }

  lemma EventsCons(evs: seq<Event>, x: Item, l: seq<Item>)
    ensures evs + ItemEvents(x) + Events(l) == evs + Events([x] + l)
  {
    hide ItemEvents; hide Events;
    EventsAppend([x], l);
    EventsOne(x);
    assert evs + ItemEvents(x) + Events(l) == evs + (ItemEvents(x) + Events(l));
  }

  lemma TwoEvents(evs: seq<Event>, x: Item, y: Item)
    ensures evs + ItemEvents(x) + ItemEvents(y) == evs + Events([x, y])
  {
    hide ItemEvents;
    EventsAppend([x], [y]);
    EventsOne(x);
    EventsOne(y);
    assert [x] + [y] == [x, y];
  }

  lemma WiresOne(c: Code, i: Instr, rest: seq<byte>)
    requires WfCode(c) && i.Upd?
    ensures Wires(c, [i]) + rest == Number(i) + rest
  {
    assert [i][1..] == [];
  }

  lemma WiresTwo(c: Code, i: Instr, j: Instr, rest: seq<byte>)
    requires WfCode(c) && i.Upd? && j.Upd?
    ensures Wires(c, [i, j]) + rest == Number(i) + (Number(j) + rest)
  {
    assert [i, j][1..] == [j] && [j][1..] == [];
    hide Number;
    assert Wires(c, [j]) == Number(j) + [];
    assert Wires(c, [i, j]) == Number(i) + Wires(c, [j]);
  }

  // ---- blocks ----

  /** The table past a field; the limit does not change. */
  function Next(stat: seq<Entry>, e: Enc, i: Instr): Enc {
    if i.Lit? && i.kind == Dyn then e.(es := Insert(e.es, Meant(stat, e.es, i), Limit(e.sz))) else e
  }

  function AfterAll(stat: seq<Entry>, e: Enc, l: seq<Instr>): Enc
    decreases |l|
  {
    if l == [] then e else AfterAll(stat, Next(stat, e, l[0]), l[1..])
  }

  /** The fields that `l` stands for. */
  function MeantAll(stat: seq<Entry>, e: Enc, l: seq<Instr>): seq<Entry>
    decreases |l|
  {
    if l == [] then [] else [Meant(stat, e.es, l[0])] + MeantAll(stat, Next(stat, e, l[0]), l[1..])
  }

  ghost predicate WfInstrs(env: Env, e: Enc, l: seq<Instr>)
    requires WfEnv(env)
    decreases |l|
  {
    l == [] || (WfInstr(env, e.es, l[0]) && WfInstrs(env, Next(env.stat, e, l[0]), l[1..]))
  }

  /** The items of the fields. */
  function ItemsOf(stat: seq<Entry>, e: Enc, l: seq<Instr>): seq<Item>
    decreases |l|
  {
    if l == [] then [] else [ItemOf(stat, e.es, Limit(e.sz), l[0])] + ItemsOf(stat, Next(stat, e, l[0]), l[1..])
  }

  /** The octets of packed fields. */
  function Sizes(fs: seq<Entry>): nat {
    if fs == [] then 0 else |fs[0].nam| + |fs[0].val| + 2 + Sizes(fs[1..])
  }

  lemma ReceivedReported(stat: seq<Entry>, t: Tab, i: Instr)
    requires !t.tooBig
    ensures var e := Meant(stat, t.es, i); Reported(Received(stat, t, i).evs) == Reported(t.evs) + [e]
    ensures Received(stat, t, i).sz == t.sz && !Received(stat, t, i).tooBig
    ensures Received(stat, t, i).es ==
            if i.Lit? && i.kind == Dyn then Insert(t.es, Meant(stat, t.es, i), Limit(t.sz)) else t.es
  {
    hide Reported; hide Meant; hide Evict; hide Total;
    var e := Meant(stat, t.es, i);
    var t1 := Note(t, FieldEvt(if i.Idx? then i.idx else 0));
    OtherReported(t.evs, FieldEvt(if i.Idx? then i.idx else 0));
    OtherReported(t1.evs, NeverEvt);
    var t2 := if i.Lit? && i.kind == Nvr then Note(t1, NeverEvt) else t1;
    PairReported(t2.evs, e.nam, e.val);
    var t3 := Note(Note(t2, NameEvt(e.nam)), ValueEvt(e.val));
    AdjustEs(t3, Total(t3.es) + EntrySize(e));
    AdjustReported(t3, Total(t3.es) + EntrySize(e));
    OtherReported(Adjust(t3, Total(t3.es) + EntrySize(e)).evs, IndexEvt(EntrySize(e)));
    hide Adjust;
  }

  lemma InsertedEvents(t: Tab, e: Entry, w: seq<Event>)
    requires !t.tooBig
    ensures var n, fit := |t.es| - |Evict(t.es, Total(t.es) + EntrySize(e), Limit(t.sz))|, EntrySize(e) <= Limit(t.sz);
            && n >= 0
            && Index(t.(evs := t.evs + w), e).evs == t.evs + (w + Evicted(n) + if fit then [IndexEvt(EntrySize(e))] else [])
  {
    IndexEvents(t.(evs := t.evs + w), e);
    hide Index; hide Evict; hide Total; hide EntrySize; hide Limit; hide Evicted;
    var n, fit := |t.es| - |Evict(t.es, Total(t.es) + EntrySize(e), Limit(t.sz))|, EntrySize(e) <= Limit(t.sz);
    var x := if fit then [IndexEvt(EntrySize(e))] else [];
    assert t.evs + w + (Evicted(n) + x) == t.evs + (w + Evicted(n) + x);
  }

  /** The events of a field are those of its item. */
  lemma ReceivedItem(stat: seq<Entry>, t: Tab, i: Instr)
    requires !t.tooBig && !i.Upd?
    ensures Received(stat, t, i).evs == t.evs + ItemEvents(ItemOf(stat, t.es, Limit(t.sz), i))
  {
    hide Meant; hide Evict; hide Total; hide Limit; hide EntrySize; hide Index; hide Evicted;
    var e := Meant(stat, t.es, i);
    var w := Opens(if i.Idx? then i.idx else 0, i.Lit? && i.kind == Nvr) + [NameEvt(e.nam), ValueEvt(e.val)];
    SaidIs(t, if i.Idx? then i.idx else 0, i.Lit? && i.kind == Nvr, e);
    hide Note; hide Opens;
    if i.Lit? && i.kind == Dyn { InsertedEvents(t, e, w); }
  }

  lemma SaidIs(t: Tab, idx: nat, never: bool, e: Entry)
    requires !t.tooBig
    ensures var t1 := Note(t, FieldEvt(idx));
            Note(Note(if never then Note(t1, NeverEvt) else t1, NameEvt(e.nam)), ValueEvt(e.val))
            == t.(evs := t.evs + (Opens(idx, never) + [NameEvt(e.nam), ValueEvt(e.val)]))
  {
  }

  /** One field keeps both ends in step. */
  lemma FieldInStep(env: Env, d: Dec, e: Enc, i: Instr, rest: seq<byte>) returns (d': Dec)
    requires WfEnv(env) && Inv(d) && !MidField(d) && d.t.sz.nxt < 0 && InStep(e, d) && WfInstr(env, e.es, i)
    requires var f := Meant(env.stat, e.es, i); |d.done| + |f.nam| + |f.val| + 2 <= d.cap
    ensures FeedAll(env, Run(d), Wire(env.code, i) + rest) == FeedAll(env, Run(d'), rest)
    ensures Inv(d') && !MidField(d') && d'.t.sz.nxt < 0 && d'.cap == d.cap && InStep(Next(env.stat, e, i), d')
    ensures var f := Meant(env.stat, e.es, i);
            |d'.done| == |d.done| + |f.nam| + |f.val| + 2 && Reported(d'.t.evs) == Reported(d.t.evs) + [f]
    ensures d'.t.evs == d.t.evs + ItemEvents(ItemOf(env.stat, e.es, Limit(e.sz), i))
  {
    assert !i.Upd?;
    hide Inv; hide FeedAll; hide WfInstr; hide Wire; hide Meant; hide Received; hide Reported; hide Insert; hide WfCode;
    hide AllGood;
    hide ItemEvents; hide ItemOf;
    d' := FieldWire(env, d, i, rest);
    ReceivedItem(env.stat, d.t, i);
    ReceivedReported(env.stat, d.t, i);
  }

  /** The fields of a block are decoded one after the other. */
  lemma {:induction false} FieldsWire(env: Env, d: Dec, e: Enc, l: seq<Instr>) returns (d': Dec)
    requires WfEnv(env) && Inv(d) && !MidField(d) && d.t.sz.nxt < 0 && InStep(e, d) && WfInstrs(env, e, l)
    requires |d.done| + Sizes(MeantAll(env.stat, e, l)) <= d.cap
    ensures FeedAll(env, Run(d), Wires(env.code, l)) == Run(d') && Inv(d') && !MidField(d')
    ensures InStep(AfterAll(env.stat, e, l), d')
    ensures Reported(d'.t.evs) == Reported(d.t.evs) + MeantAll(env.stat, e, l)
    ensures d'.t.evs == d.t.evs + Events(ItemsOf(env.stat, e, l))
    decreases |l|
  {
    hide Inv; hide FeedAll; hide WfInstr; hide WfCode; hide AllGood; hide Wire; hide Meant; hide Reported; hide InStep; hide Next;
    hide Events; hide ItemEvents; hide ItemOf;
    FeedNothing(env);
    d' := d;
    if l == [] {
      assert Reported(d.t.evs) + [] == Reported(d.t.evs);
      NoEvents(d.t.evs);
    } else {
      var f, more := Meant(env.stat, e.es, l[0]), MeantAll(env.stat, Next(env.stat, e, l[0]), l[1..]);
      assert ([f] + more)[1..] == more;
      var d1 := FieldInStep(env, d, e, l[0], Wires(env.code, l[1..]));
      d' := FieldsWire(env, d1, Next(env.stat, e, l[0]), l[1..]);
      assert Reported(d.t.evs) + [f] + more == Reported(d.t.evs) + ([f] + more);
      EventsCons(d.t.evs, ItemOf(env.stat, e.es, Limit(e.sz), l[0]), ItemsOf(env.stat, Next(env.stat, e, l[0]), l[1..]));
    }
  }

  /** What hpack_encode writes for a block. */
  function BlockWire(env: Env, e: Enc, l: seq<Instr>): seq<byte>
    requires WfCode(env.code) && WfSize(e.sz)
  {
    Wires(env.code, Announced(e.sz)) + Wires(env.code, l)
  }

  /** What both ends tell their users of a block. */
  function BlockItems(stat: seq<Entry>, e: Enc, l: seq<Instr>): seq<Item>
    requires WfSize(e.sz)
  {
    AnnouncedItems(e) + ItemsOf(stat, Settled(e), l)
  }

  /** The encoder past a block. */
  function Sent(stat: seq<Entry>, e: Enc, l: seq<Instr>): Enc
    requires WfSize(e.sz)
  {
    AfterAll(stat, Settled(e), l)
  }

  /** A block of valid fields, which the buffer of the decoder has room for. */
  ghost predicate WfBlock(env: Env, e: Enc, l: seq<Instr>, cap: nat)
    requires WfEnv(env) && WfSize(e.sz)
  {
    l != [] && WfInstrs(env, Settled(e), l) && Sizes(MeantAll(env.stat, Settled(e), l)) <= cap
  }

  lemma WireSome(c: Code, l: seq<Instr>)
    requires WfCode(c) && l != []
    ensures Wires(c, l) != []
  {
    hide WfCode;
    assert Number(l[0]) != [] by {
      Pow2Table();
      match l[0]
      case Upd(lim) => FirstOctet(5, 0x20, lim);
      case Idx(idx) => FirstOctet(7, 0x80, idx);
      case Lit(k, n, _) => FirstOctet(KindPrefix(k), KindPattern(k), if n.ByIndex? then n.idx else 0);
    }
    hide Number; hide StrWire;
  }

  /**
   A block is accepted if and only if its announcements are acceptable, and then both ends have the same table under the same
   limit, and the decoder reported exactly the fields that were encoded.
   */
  lemma BlockInStep(env: Env, d: Dec, e: Enc, cap: nat, l: seq<Instr>) returns (d': Dec)
    requires WfEnv(env) && Inv(d) && !MidField(d) && InStep(e, d) && WfSize(e.sz) && WfBlock(env, e, l, cap)
    ensures var w := BlockWire(env, e, l);
            w != [] && var o := Called(env, d, false, cap, w);
            (Acceptable(e.sz) <==> Verdict(o, false) == OK) && if Acceptable(e.sz) then o == Run(d') else o.Fail? && o.res == LEN
    ensures Acceptable(e.sz) ==>
              && Inv(d') && !MidField(d') && InStep(Sent(env.stat, e, l), d')
              && Reported(d'.t.evs) == Reported(d.t.evs) + MeantAll(env.stat, Settled(e), l)
              && d'.t.evs == d.t.evs + Events(BlockItems(env.stat, e, l))
  {
    WireSome(env.code, l);
    StartInv(d, cap);
    hide Inv; hide FeedAll; hide WfInstrs; hide WfCode; hide AllGood; hide Announced; hide Settled; hide Reported; hide Wires;
    hide MeantAll; hide AfterAll; hide Acceptable; hide Events; hide AnnouncedItems; hide ItemsOf;
    d' := AnnounceWire(env, Start(d, cap), e, Wires(env.code, l));
    if Acceptable(e.sz) {
      d' := FieldsWire(env, d', Settled(e), l);
      EventsJoin(d.t.evs, AnnouncedItems(e), ItemsOf(env.stat, Settled(e), l));
    }
  }

  lemma TwoResizes(s: Size)
    requires s.min < 0
    ensures Resizes(s, [5000, 6000]) == s.(nxt := 6000, min := 5000)
  {
    var lens: seq<u16> := [5000, 6000];
    var one: seq<u16> := [5000];
    assert lens[..1] == one && one[..0] == [];
    assert Resizes(s, one) == s.(nxt := 5000, min := 5000);
  }

  /** Resizes to 5000 and then 6000, above the current 4096: the first announcement is refused, and any block with it. */
  lemma ResizeCounterexample(env: Env, d: Dec, cap: nat, l: seq<Instr>)
    requires WfEnv(env) && Inv(d) && !MidField(d) && !d.t.tooBig
    requires d.t.sz == Resizes(Size(4096, 4096, -1, -1), [5000, 6000])
    requires var e := Enc(d.t.es, Resizes(Size(4096, -1, -1, -1), [5000, 6000])); WfSize(e.sz) && WfBlock(env, e, l, cap)
    ensures var e := Enc(d.t.es, Resizes(Size(4096, -1, -1, -1), [5000, 6000]));
            && WfSize(e.sz) && InStep(e, d) && BlockWire(env, e, l) != [] && Announced(e.sz) == [Upd(5000), Upd(6000)]
            && var o := Called(env, d, false, cap, BlockWire(env, e, l)); o.Fail? && o.res == LEN
  {
    TwoResizes(Size(4096, 4096, -1, -1));
    TwoResizes(Size(4096, -1, -1, -1));
    var e := Enc(d.t.es, Size(4096, -1, 6000, 5000));
    hide Inv; hide Called; hide BlockWire; hide WfBlock; hide WfCode; hide AllGood; hide Resizes;
    var d' := BlockInStep(env, d, e, cap, l);
  }

  // ---- whole runs ----

  /** hpack_resize on both ends, or a block from one to the other. */
  datatype Action = ResizeBoth(len: u16) | SendBlock(l: seq<Instr>)

  function EncRun(stat: seq<Entry>, e: Enc, acts: seq<Action>): Enc
    requires WfSize(e.sz)
    decreases |acts|
  {
    if acts == [] then e
    else match acts[0]
      case ResizeBoth(len) => EncRun(stat, e.(sz := Resized(e.sz, len)), acts[1..])
      case SendBlock(l) =>
        SentSize(stat, e, l);
        EncRun(stat, Sent(stat, e, l), acts[1..])
  }

  lemma SentSize(stat: seq<Entry>, e: Enc, l: seq<Instr>)
    requires WfSize(e.sz)
    ensures var r := Sent(stat, e, l); r.sz == Settled(e).sz && WfSize(r.sz)
  {
    AfterAllSize(stat, Settled(e), l);
  }

  lemma {:induction false} AfterAllSize(stat: seq<Entry>, e: Enc, l: seq<Instr>)
    ensures AfterAll(stat, e, l).sz == e.sz
    decreases |l|
  {
    if l != [] { AfterAllSize(stat, Next(stat, e, l[0]), l[1..]); }
  }

  /** The decoder at the other end. */
  function DecRun(env: Env, e: Enc, d: Dec, cap: nat, acts: seq<Action>): Out
    requires WfCode(env.code) && WfSize(e.sz)
    decreases |acts|
  {
    if acts == [] then Run(d)
    else match acts[0]
      case ResizeBoth(len) => DecRun(env, e.(sz := Resized(e.sz, len)), d.(t := d.t.(sz := Resized(d.t.sz, len))), cap, acts[1..])
      case SendBlock(l) =>
        var w := BlockWire(env, e, l);
        var o := if w == [] then Run(d) else Called(env, d, false, cap, w);
        SentSize(env.stat, e, l);
        if o.Fail? then o else DecRun(env, Sent(env.stat, e, l), o.d, cap, acts[1..])
  }

  /** The fields of all the blocks of a run. */
  function Encoded(stat: seq<Entry>, e: Enc, acts: seq<Action>): seq<Entry>
    requires WfSize(e.sz)
    decreases |acts|
  {
    if acts == [] then []
    else match acts[0]
      case ResizeBoth(len) => Encoded(stat, e.(sz := Resized(e.sz, len)), acts[1..])
      case SendBlock(l) =>
        SentSize(stat, e, l);
        MeantAll(stat, Settled(e), l) + Encoded(stat, Sent(stat, e, l), acts[1..])
  }

  /** Every block is valid where it is sent, and its announcements are acceptable. */
  ghost predicate Admissible(env: Env, e: Enc, cap: nat, acts: seq<Action>)
    requires WfEnv(env) && WfSize(e.sz)
    decreases |acts|
  {
    acts == [] || match acts[0]
      case ResizeBoth(len) => Admissible(env, e.(sz := Resized(e.sz, len)), cap, acts[1..])
      case SendBlock(l) =>
        SentSize(env.stat, e, l);
        Acceptable(e.sz) && WfBlock(env, e, l, cap) && Admissible(env, Sent(env.stat, e, l), cap, acts[1..])
  }

  /** Over any run the decoder reports what was encoded, and both tables stay the same. */
  lemma {:induction false} StayInStep(env: Env, e: Enc, d: Dec, cap: nat, acts: seq<Action>) returns (d': Dec)
    requires WfEnv(env) && WfSize(e.sz) && Inv(d) && !MidField(d) && InStep(e, d) && Admissible(env, e, cap, acts)
    ensures DecRun(env, e, d, cap, acts) == Run(d')
    ensures Inv(d') && !MidField(d') && InStep(EncRun(env.stat, e, acts), d')
    ensures Reported(d'.t.evs) == Reported(d.t.evs) + Encoded(env.stat, e, acts)
    decreases |acts|
  {
    hide Inv; hide WfCode; hide AllGood; hide Called; hide BlockWire;
    hide Sent; hide Reported; hide WfBlock; hide Acceptable; hide MeantAll;
    d' := d;
    if acts == [] {
      assert Reported(d.t.evs) + [] == Reported(d.t.evs);
    } else {
      match acts[0]
      case ResizeBoth(len) =>
        ResizedInv(d, len);
        d' := StayInStep(env, e.(sz := Resized(e.sz, len)), d.(t := d.t.(sz := Resized(d.t.sz, len))), cap, acts[1..]);
      case SendBlock(l) =>
        SentSize(env.stat, e, l);
        var d1 := BlockInStep(env, d, e, cap, l);
        d' := StayInStep(env, Sent(env.stat, e, l), d1, cap, acts[1..]);
        var m, r := MeantAll(env.stat, Settled(e), l), Encoded(env.stat, Sent(env.stat, e, l), acts[1..]);
        assert Reported(d.t.evs) + m + r == Reported(d.t.evs) + (m + r);
    }
  }
}

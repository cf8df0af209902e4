/**
 What a block reports. The events sent since the start of a block are those of a list of whole items, and of the field
 under way if there is one; the output buffer holds the names and values of these items, packed one after the other.
 */
module DecoderEvents {
  import opened Common
  import opened Bits
  import opened HuffmanCode
  import opened Validate
  import opened TableSpec
  import opened DecoderSpec
  import opened DecoderScan
  import opened DecoderBlock

  /** A field or an update of a block, with the evictions it made and the size of the entry it inserted. */
  datatype Item =
    | IndexedItem(idx: nat, nam: seq<byte>, val: seq<byte>)
    | PlainItem(never: bool, nam: seq<byte>, val: seq<byte>)
    | DynamicItem(nam: seq<byte>, val: seq<byte>, evicted: nat, inserted: bool)
    | UpdateItem(evicted: nat, lim: nat)

  function Evicted(n: nat): seq<Event> {
    if n > 0 then [EvictEvt(n)] else []
  }

  function Opens(idx: nat, never: bool): seq<Event> {
    [FieldEvt(idx)] + if never then [NeverEvt] else []
  }

  function ItemEvents(i: Item): seq<Event> {
    match i
    case IndexedItem(idx, nam, val) => Opens(idx, false) + [NameEvt(nam), ValueEvt(val)]
    case PlainItem(never, nam, val) => Opens(0, never) + [NameEvt(nam), ValueEvt(val)]
    case DynamicItem(nam, val, n, inserted) =>
      Opens(0, false) + [NameEvt(nam), ValueEvt(val)] + Evicted(n) + (if inserted then [IndexEvt(EntrySize(Entry(nam, val)))] else [])
    case UpdateItem(n, lim) => Evicted(n) + [TableEvt(lim)]
  }

  function Events(l: seq<Item>): seq<Event> {
    if l == [] then [] else Events(l[..|l| - 1]) + ItemEvents(l[|l| - 1])
  }

  /** The field of an item. */
  function FieldOf(i: Item): seq<Entry> {
    if i.UpdateItem? then [] else [Entry(i.nam, i.val)]
  }

  function Fields(l: seq<Item>): seq<Entry> {
    if l == [] then [] else Fields(l[..|l| - 1]) + FieldOf(l[|l| - 1])
  }

  function Updates(l: seq<Item>): nat {
    if l == [] then 0 else Updates(l[..|l| - 1]) + if l[|l| - 1].UpdateItem? then 1 else 0
  }

  function Pack(fs: seq<Entry>): seq<byte> {
    if fs == [] then [] else Pack(fs[..|fs| - 1]) + Packed(fs[|fs| - 1].nam, fs[|fs| - 1].val)
  }

  lemma Snoc(l: seq<Item>, i: Item)
    ensures Events(l + [i]) == Events(l) + ItemEvents(i)
    ensures Fields(l + [i]) == Fields(l) + FieldOf(i)
    ensures Updates(l + [i]) == Updates(l) + if i.UpdateItem? then 1 else 0
    ensures Pack(Fields(l + [i])) == Pack(Fields(l)) + if i.UpdateItem? then [] else Packed(i.nam, i.val)
    ensures AllGood(Fields(l)) && (!i.UpdateItem? ==> Good(Entry(i.nam, i.val))) ==> AllGood(Fields(l + [i]))
  {
    hide Good; hide ItemEvents; hide Packed;
    var m := l + [i];
    assert m[..|m| - 1] == l;
    if i.UpdateItem? {
      assert Fields(l) + [] == Fields(l) && Pack(Fields(l)) + [] == Pack(Fields(l));
    } else {
      var f := Fields(l) + [Entry(i.nam, i.val)];
      assert f[..|f| - 1] == Fields(l);
    }
  }

  /** The events of the field under way. */
  function Partly(d: Dec): seq<Event> {
    if d.stp == FldInt then [] else Opens(0, IsNever(d.typ))
  }

  /** How many updates the block may still have: two after resizes that went down and up again. */
  function UpdatesLeft(d: Dec): nat {
    if !d.canUpd then 0 else if 0 <= d.t.sz.min < d.t.sz.nxt then 2 else 1
  }

  /** `l` is the story of the block, which started after the events `was`. */
  ghost predicate Story(was: seq<Event>, d: Dec, l: seq<Item>) {
    && !d.t.tooBig
    && d.t.evs == was + Events(l) + Partly(d)
    && d.done == Pack(Fields(l))
    && AllGood(Fields(l))
    && Updates(l) + UpdatesLeft(d) <= 2
  }

  lemma StoryStarts(d: Dec, cap: nat)
    requires !d.t.tooBig && !MidField(d)
    ensures Story(d.t.evs, Start(d, cap), [])
  {
    assert d.t.evs + [] + [] == d.t.evs;
  }

  /** Making room keeps everything, unless a field is discarded. */
  lemma SkipSame(d: Dec, used: nat, n: nat)
    ensures var o := Skip(d, used, n); o.Run? && !o.d.t.tooBig ==> o == Run(d)
    ensures var o := Skip(d, used, n); o.Run? ==> o.d == d.(t := d.t.(tooBig := o.d.t.tooBig), done := o.d.done)
  {
  }

  lemma PutSame(d: Dec, s: seq<byte>)
    ensures var o := Put(d, s); o.Run? && !o.d.t.tooBig ==> o == Run(d.(str := d.str + s))
  {
  }

  /** At most one item more. */
  ghost predicate Longer(l: seq<Item>, l': seq<Item>) {
    l' == l || exists i :: l' == l + [i]
  }

  lemma LongerSame(l: seq<Item>)
    ensures Longer(l, l)
  {
  }

  /** Octets that end nothing. */
  lemma StoryGoesOn(was: seq<Event>, d: Dec, e: Dec, l: seq<Item>)
    requires Story(was, d, l) && e.t == d.t && e.done == d.done && Partly(e) == Partly(d) && (e.canUpd ==> d.canUpd)
    ensures Story(was, e, l)
  {
  }

  /** An item is complete: `more` are the events of it that are not sent yet. */
  lemma StoryItem(was: seq<Event>, d: Dec, e: Dec, l: seq<Item>, i: Item, more: seq<Event>)
    requires Story(was, d, l) && !e.t.tooBig && e.stp == FldInt
    requires e.t.evs == d.t.evs + more && Partly(d) + more == ItemEvents(i)
    requires e.done == d.done + if i.UpdateItem? then [] else Packed(i.nam, i.val)
    requires UpdatesLeft(e) + (if i.UpdateItem? then 1 else 0) <= UpdatesLeft(d)
    requires !i.UpdateItem? ==> Good(Entry(i.nam, i.val))
    ensures Story(was, e, l + [i]) && Longer(l, l + [i])
  {
    hide Events; hide Fields; hide Updates; hide Pack; hide AllGood; hide Good; hide ItemEvents; hide Partly; hide UpdatesLeft;
    Snoc(l, i);
    var a := was + Events(l);
    assert a + Partly(d) + more == a + (Partly(d) + more);
    assert e.t.evs == was + (Events(l) + ItemEvents(i));
    assert Partly(e) == [] by { Between(e); }
    assert e.t.evs + [] == e.t.evs;
  }

  lemma Between(d: Dec)
    ensures d.stp == FldInt ==> Partly(d) == []
  {
  }

  /** A field of the table is reported. */
  lemma IndexedStory(env: Env, was: seq<Event>, d: Dec, l: seq<Item>, v: nat) returns (l': seq<Item>)
    requires WfEnv(env) && Inv(d) && Story(was, d, l) && d.stp == FldInt && !d.bsy
    ensures Longer(l, l')
    ensures var o := Indexed(env, Notify(d, FieldEvt(v)), v); o.Run? && !o.d.t.tooBig ==> Story(was, o.d, l')
  {
    hide Pack; hide Total; hide Room; hide Fields; hide Events; hide ValueOk; hide Limit;
    hide Longer;
    LongerSame(l);
    LookupGood(env, d.t.es, v);
    var d0 := Notify(d, FieldEvt(v));
    NoteInv(d, FieldEvt(v));
    IndexedIs(env, d0, v);
    hide WfEnv; hide AllGood; hide Good; hide Lookup; hide Story; hide Inv; hide Indexed; hide Over; hide Packed;
    var r, o := Lookup(env.stat, d.t.es, v), Indexed(env, d0, v);
    l' := l;
    if o.Run? && !o.d.t.tooBig {
      var e := r.value;
      OverIs(Room(Room(d0, 0, |e.nam| + 1).(nam := e.nam), |e.nam| + 1, |e.val| + 1), e.val);
      l' := l + [IndexedItem(v, e.nam, e.val)];
      StoryItem(was, d, o.d, l, IndexedItem(v, e.nam, e.val), [FieldEvt(v), NameEvt(e.nam), ValueEvt(e.val)]);
    }
  }

  lemma AdjustEvents(t: Tab, len: nat)
    requires !t.tooBig
    ensures var n := |t.es| - |Evict(t.es, len, Limit(t.sz))|; n >= 0 && Adjust(t, len).evs == t.evs + Evicted(n)
  {
    hide Evict;
    assert t.evs + [] == t.evs;
  }

  lemma UpdateStory(was: seq<Event>, d: Dec, l: seq<Item>, v: nat) returns (l': seq<Item>)
    requires Story(was, d, l) && d.stp == FldInt && d.canUpd && WfSize(d.t.sz)
    ensures Longer(l, l')
    ensures var o := Update(d, v); o.Run? && !o.d.t.tooBig ==> Story(was, o.d, l')
  {
    hide Pack; hide TableSpec.Adjust; hide Evicted; hide Opens; hide Events; hide Fields; hide Updates; hide Lookup;
    hide Longer;
    LongerSame(l);
    l' := l;
    var o := Update(d, v);
    if o.Run? {
      var s := d.t.sz;
      var t := d.t.(sz := (if s.min >= 0 then if s.min < s.nxt then s.(min := s.nxt) else Size(s.nxt, v, -1, -1) else s).(lim := v));
      AdjustEs(t, Total(t.es));
      AdjustEvents(t, Total(t.es));
      hide Story; hide Adjust; hide Evict; hide Total;
      var n := |t.es| - |Evict(t.es, Total(t.es), v)|;
      l' := l + [UpdateItem(n, v)];
      StoryItem(was, d, o.d, l, UpdateItem(n, v), Evicted(n) + [TableEvt(v)]);
    }
  }

  lemma IndexEvents(t: Tab, e: Entry)
    requires !t.tooBig
    ensures var n, fit := |t.es| - |Evict(t.es, Total(t.es) + EntrySize(e), Limit(t.sz))|, EntrySize(e) <= Limit(t.sz);
            && n >= 0
            && Index(t, e).evs == t.evs + (Evicted(n) + if fit then [IndexEvt(EntrySize(e))] else [])
            && Index(t, e).sz == t.sz && !Index(t, e).tooBig
  {
    AdjustEvents(t, Total(t.es) + EntrySize(e));
    hide Evict; hide Total;
  }

  /** The value of a field ends, and with it the field. */
  lemma ValueStory(was: seq<Event>, d: Dec, l: seq<Item>) returns (l': seq<Item>)
    requires Story(was, d, l) && InValue(d.stp) && !IsIndexed(d.typ) && d.nam != [] && Token(d.nam) == OK
    ensures Longer(l, l')
    ensures var o := ValueReady(d); o.Run? && !o.d.t.tooBig ==> Story(was, o.d, l')
  {
    hide Events; hide IsIndexed; hide FieldOf; hide TableSpec.Adjust; hide Evicted; hide TableSpec.Index; hide Limit;
    hide Longer;
    LongerSame(l);
    l' := l;
    hide Token; hide ValueOk;
    if ValueOk(d.str) {
      var d1 := Report(d.(done := d.done + Packed(d.nam, d.str)), d.nam, d.str);
      var e := Entry(d.nam, d.str);
      var n, fit := |d.t.es| - |Evict(d.t.es, Total(d.t.es) + EntrySize(e), Limit(d.t.sz))|, EntrySize(e) <= Limit(d.t.sz);
      IndexEvents(d1.t, e);
      hide Story; hide Index; hide Evict; hide Total; hide Packed;
      var r := [NameEvt(d.nam), ValueEvt(d.str)];
      assert d1.t.evs == d.t.evs + r;
      if IsDynamic(d.typ) {
        var i := DynamicItem(d.nam, d.str, n, fit);
        var w := Evicted(n) + (if fit then [IndexEvt(EntrySize(e))] else []);
        assert Opens(0, false) + r + w == Opens(0, false) + (r + w);
        assert d1.t.evs + w == d.t.evs + (r + w);
        l' := l + [i];
        StoryItem(was, d, ValueReady(d).d, l, i, r + w);
      } else {
        var i := PlainItem(IsNever(d.typ), d.nam, d.str);
        l' := l + [i];
        StoryItem(was, d, ValueReady(d).d, l, i, r);
      }
    }
  }

  lemma FieldIntStory(env: Env, was: seq<Event>, d: Dec, l: seq<Item>, v: u16) returns (l': seq<Item>)
    requires WfEnv(env) && Inv(d) && Story(was, d, l) && d.stp == FldInt && !d.bsy
    requires if UpdBit(d.typ) then IsUpdate(d.typ) ==> d.canUpd else d.t.sz.nxt < 0 && !d.canUpd
    ensures Longer(l, l')
    ensures var o := FieldInt(env, d, v); o.Run? && !o.d.t.tooBig ==> Story(was, o.d, l')
  {
    hide Longer;
    LongerSame(l);
    l' := l;
    hide Indexed; hide Update; hide WfEnv; hide Good; hide AllGood; hide Total; hide Events; hide Fields; hide Updates; hide Pack;
    hide Lookup; hide Token;
    if IsIndexed(d.typ) {
      l' := IndexedStory(env, was, d, l, v);
    } else if IsUpdate(d.typ) {
      l' := UpdateStory(was, d, l, v);
    } else {
      var q0 := Notify(d.(idx := v), FieldEvt(0));
      var q := (if IsNever(d.typ) then Notify(q0, NeverEvt) else q0).(stp := NamLen);
      assert q.t.evs == d.t.evs + Opens(0, IsNever(d.typ));
      assert Story(was, q, l) by {
        var a := was + Events(l);
        assert a + [] == a;
      }
      var o := FieldInt(env, d, v);
      IndexedNameIs(env, q);
      var r := Lookup(env.stat, q.t.es, q.idx);
      if r.Some? { PutSame(q, r.value.nam + [0]); }
      if o.Run? && !o.d.t.tooBig { StoryGoesOn(was, q, o.d, l); }
    }
  }

  lemma ValueBig(d: Dec)
    requires d.t.tooBig
    ensures var o := ValueReady(d); o.Run? ==> o.d.t.tooBig
  {
    hide ValueOk; hide Evict; hide Total;
  }

  /** Whether the string under way is a name or a value, its end keeps the story. */
  lemma EndStory(was: seq<Event>, d: Dec, l: seq<Item>) returns (l': seq<Item>)
    requires Story(was, d, l) && InString(d.stp) && !IsIndexed(d.typ)
    requires d.stp == ValStr ==> d.nam != [] && Token(d.nam) == OK
    ensures Longer(l, l')
    ensures var o := StringEnd(d); o.Run? && !o.d.t.tooBig ==> Story(was, o.d, l')
  {
    hide Longer;
    LongerSame(l);
    l' := l;
    hide ValueReady; hide Events; hide Fields; hide Updates; hide Pack; hide AllGood; hide Token;
    var q := d.(left := 0, pend := []);
    SkipSame(q, Used(d), 1);
    var o := Skip(q, Used(d), 1);
    if o.Run? && !o.d.t.tooBig {
      StoryGoesOn(was, d, q, l);
      if d.stp == ValStr {
        l' := ValueStory(was, q, l);
      } else if Token(q.str) == OK {
        StoryGoesOn(was, q, NameReady(q, q.str).d, l);
      }
    } else if o.Run? {
      ValueBig(o.d);
    }
  }

  lemma FinishStory(was: seq<Event>, d: Dec, l: seq<Item>) returns (l': seq<Item>)
    requires Story(was, d, l) && InString(d.stp) && !IsIndexed(d.typ)
    requires d.stp == ValStr ==> d.nam != [] && Token(d.nam) == OK
    ensures Longer(l, l')
    ensures var o := Finish(d); o.Run? && !o.d.t.tooBig ==> Story(was, o.d, l')
  {
    hide Longer;
    LongerSame(l);
    hide StringEnd; hide Story; hide Padding; hide Token;
    l' := l;
    if d.left == 0 { l' := EndStory(was, d, l); }
  }

  /** Once a field was discarded, events stay silent to the end of the block. */
  lemma FinishBig(d: Dec)
    requires d.t.tooBig
    ensures var o := Finish(d); o.Run? ==> o.d.t.tooBig
  {
    hide Token; hide Evict; hide Total; hide ValueOk;
  }

  lemma UpdateBig(d: Dec, v: nat)
    requires d.t.tooBig
    ensures var o := Update(d, v); o.Run? ==> o.d.t.tooBig
  {
    hide Evict; hide Total; hide Limit;
  }

  lemma FieldIntBig(env: Env, d: Dec, v: nat)
    requires d.t.tooBig
    ensures var o := FieldInt(env, d, v); o.Run? ==> o.d.t.tooBig
  {
    hide Token; hide Lookup; hide Update; hide Packed;
    UpdateBig(d, v);
  }

  lemma FeedBig(env: Env, d: Dec, b: byte)
    requires d.t.tooBig
    ensures var o := Feed(env, d, b); o.Run? ==> o.d.t.tooBig
  {
    hide Parse; hide IntOctet; hide Finish; hide FieldInt;
    match d.stp
    case NamStr | ValStr =>
      var p := if d.huf then Parse(env.code, d.pend + Of(b, 8)) else Parsed([b], [], false);
      var o := Put(d, p.out);
      if o.Run? { FinishBig(o.d.(left := if d.left > 0 then d.left - 1 else 0, pend := p.rest)); }
    case NamLen | ValLen =>
      var d1 := if d.bsy then d else d.(huf := b >= 0x80);
      var r := IntOctet(d1, 7, b);
      if r.Done? { FinishBig(Begun(d1.(bsy := false, hpi := IDLE), r.v)); }
    case FldInt =>
      var h := if d.bsy then Run(d) else Head(d, b);
      if h.Run? {
        var r := IntOctet(h.d, Prefix(h.d.typ), b);
        if r.Done? { FieldIntBig(env, h.d.(bsy := false, hpi := IDLE), r.v); }
      }
  }

  lemma OctetStory(env: Env, was: seq<Event>, d: Dec, b: byte, l: seq<Item>) returns (l': seq<Item>)
    requires Inv(d) && InString(d.stp) && Story(was, d, l)
    ensures Longer(l, l')
    ensures var o := StringOctet(env, d, b); o.Run? && !o.d.t.tooBig ==> Story(was, o.d, l')
  {
    hide Longer;
    LongerSame(l);
    hide Finish; hide Parse; hide Story; hide Token; hide Put; hide AllGood; hide Total; hide WfSize;
    l' := l;
    var p := if d.huf then Parse(env.code, d.pend + Of(b, 8)) else Parsed([b], [], false);
    PutSame(d, p.out);
    var o := Put(d, p.out);
    if o.Run? && !p.eos {
      var e := o.d.(left := d.left - 1, pend := p.rest);
      if !o.d.t.tooBig {
        StoryGoesOn(was, d, e, l);
        l' := FinishStory(was, e, l);
      } else {
        FinishBig(e);
      }
    }
  }

  lemma LengthStory(env: Env, was: seq<Event>, d: Dec, b: byte, l: seq<Item>) returns (l': seq<Item>)
    requires Inv(d) && Story(was, d, l) && (d.stp == NamLen || d.stp == ValLen)
    ensures Longer(l, l')
    ensures var o := Feed(env, d, b); o.Run? && !o.d.t.tooBig ==> Story(was, o.d, l')
  {
    hide Longer;
    LongerSame(l);
    InvType(d);
    hide Story; hide Finish; hide IntOctet; hide Token; hide Inv;
    l' := l;
    var d1 := if d.bsy then d else d.(huf := b >= 0x80);
    var r := IntOctet(d1, 7, b);
    match r
    case More(h) => StoryGoesOn(was, d, d1.(bsy := true, hpi := h), l);
    case Done(v) =>
      var e := Begun(d1.(bsy := false, hpi := IDLE), v);
      StoryGoesOn(was, d, e, l);
      l' := FinishStory(was, e, l);
    case Overflow =>
  }

  lemma IntStory(env: Env, was: seq<Event>, d: Dec, b: byte, l: seq<Item>) returns (l': seq<Item>)
    requires WfEnv(env) && Inv(d) && Story(was, d, l) && d.stp == FldInt
    ensures Longer(l, l')
    ensures var o := Feed(env, d, b); o.Run? && !o.d.t.tooBig ==> Story(was, o.d, l')
  {
    hide Longer;
    LongerSame(l);
    HeadKeeps(d);
    StartedInv(d);
    hide Story; hide FieldInt; hide IntOctet; hide WfEnv; hide Inv;
    l' := l;
    var h := if d.bsy then Run(d) else Head(d, b);
    if h.Run? {
      var r := IntOctet(h.d, Prefix(h.d.typ), b);
      match r {
        case More(g) => StoryGoesOn(was, d, h.d.(bsy := true, hpi := g), l);
        case Done(v) =>
          var e := h.d.(bsy := false, hpi := IDLE);
          StoryGoesOn(was, d, e, l);
          l' := FieldIntStory(env, was, e, l, v);
        case Overflow =>
      }
    }
  }

  lemma FeedStory(env: Env, was: seq<Event>, d: Dec, b: byte, l: seq<Item>) returns (l': seq<Item>)
    requires WfEnv(env) && Inv(d) && Story(was, d, l)
    ensures Longer(l, l')
    ensures var o := Feed(env, d, b); o.Run? && !o.d.t.tooBig ==> Story(was, o.d, l')
  {
    hide Longer;
    LongerSame(l);
    match d.stp
    case NamStr | ValStr => l' := OctetStory(env, was, d, b, l);
    case NamLen | ValLen => l' := LengthStory(env, was, d, b, l);
    case FldInt => l' := IntStory(env, was, d, b, l);
  }

  lemma InvType(d: Dec)
    requires Inv(d)
    ensures d.stp != FldInt ==> !IsIndexed(d.typ)
    ensures InValue(d.stp) ==> d.nam != [] && Token(d.nam) == OK
  {
  }

  lemma {:induction false} FeedAllBig(env: Env, o: Out, s: seq<byte>)
    requires o.Run? ==> o.d.t.tooBig
    ensures var f := FeedAll(env, o, s); f.Run? ==> f.d.t.tooBig
    decreases |s|
  {
    if s != [] && o.Run? {
      FeedBig(env, o.d, s[0]);
      FeedAllBig(env, Feed(env, o.d, s[0]), s[1..]);
    }
  }

  lemma {:induction false} FeedAllInv(env: Env, o: Out, s: seq<byte>)
    requires WfEnv(env) && (o.Run? ==> Inv(o.d))
    ensures var f := FeedAll(env, o, s); f.Run? ==> Inv(f.d)
    decreases |s|
  {
    hide WfEnv; hide Inv; hide Feed;
    if s != [] && o.Run? {
      FeedInv(env, o.d, s[0]);
      FeedAllInv(env, Feed(env, o.d, s[0]), s[1..]);
    }
  }

  /** A chunk continues the story of its block. */
  lemma {:induction false} ChunkStory(env: Env, was: seq<Event>, d: Dec, s: seq<byte>, l: seq<Item>) returns (l': seq<Item>)
    requires WfEnv(env) && Inv(d) && Story(was, d, l)
    ensures var o := FeedAll(env, Run(d), s); o.Run? && !o.d.t.tooBig ==> Story(was, o.d, l')
    decreases |s|
  {
    hide WfEnv; hide Inv; hide Feed; hide Story;
    l' := l;
    FeedNothing(env);
    if s != [] {
      var o := Feed(env, d, s[0]);
      FeedInv(env, d, s[0]);
      var l1 := FeedStory(env, was, d, s[0], l);
      if o.Run? {
        if o.d.t.tooBig {
          FeedAllBig(env, o, s[1..]);
        } else {
          l' := ChunkStory(env, was, o.d, s[1..], l1);
        }
      }
    }
  }

  /**
   A block that decodes to its end without discarding a field reports whole items one after the other, at most two of which
   are updates, and leaves their names and values packed in the buffer.
   */
  lemma BlockStory(env: Env, d: Dec, cap: nat, s: seq<byte>) returns (l: seq<Item>)
    requires WfEnv(env) && Inv(d) && !MidField(d) && !d.t.tooBig
    ensures var o := FeedAll(env, Run(Start(d, cap)), s);
            o.Run? && !MidField(o.d) && !o.d.t.tooBig ==>
              o.d.t.evs == d.t.evs + Events(l) && o.d.done == Pack(Fields(l)) && AllGood(Fields(l)) && Updates(l) <= 2
  {
    StartInv(d, cap);
    StoryStarts(d, cap);
    l := ChunkStory(env, d.t.evs, Start(d, cap), s, []);
    hide Inv; hide AllGood; hide WfEnv; hide FeedAll;
    var o := FeedAll(env, Run(Start(d, cap)), s);
    if o.Run? && !MidField(o.d) && !o.d.t.tooBig {
      var a := d.t.evs + Events(l);
      assert a + [] == a;
    }
  }
}

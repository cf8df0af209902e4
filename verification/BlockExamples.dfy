/**
 How an example block is put together from literal octets: it is followed field by field, as an encoder writes it and a
 decoder reads it.
 */
module BlockExamples {
  import opened Common
  import opened Bits
  import opened IntSpec
  import opened Validate
  import opened HuffmanCode
  import opened TableSpec
  import opened DecoderSpec
  import opened DecoderScan
  import opened DecoderBlock
  import opened DecoderEvents
  import opened EncoderSpec
  import opened WireScan
  import opened Lockstep
  import opened Protocol

  /** The size of the output buffer. */
  const BUFFER: nat := 4096

  /** A decoder between two blocks, with these entries under this limit. */
  ghost predicate Idle(d: Dec, max: u16, es: seq<Entry>) {
    Inv(d) && !MidField(d) && d.t == Tab(es, Size(max, -1, -1, -1), d.t.evs, false)
  }

  /**
   An encoder writes the octets `w` for `l`, and a decoder that reads them accepts the block, sends the events `evs`, and
   has the entries `es`.
   */
  ghost predicate Example(env: Env, d: Dec, max: u16, l: seq<Instr>, w: seq<byte>, evs: seq<Event>, es: seq<Entry>, d': Dec) {
    && WfEnv(env) && w != [] && w == Wires(env.code, l)
    && Called(env, d, false, BUFFER, w) == Run(d') && Verdict(Run(d'), false) == OK
    && Idle(d', max, es) && d'.t.evs == d.t.evs + evs
  }

  /** A block so far: what was written of it, the events since its start, and the decoder that read it. */
  datatype Trip = Trip(l: seq<Instr>, w: seq<byte>, evs: seq<Event>, d: Dec)

  ghost predicate On(env: Env, d0: Dec, max: u16, es: seq<Entry>, t: Trip) {
    && WfEnv(env) && t.w == Wires(env.code, t.l) && FeedAll(env, Run(d0), t.w) == Run(t.d)
    && Idle(t.d, max, es) && t.d.t.evs == d0.t.evs + t.evs && t.d.cap == BUFFER && |t.d.done| <= 200 * |t.l|
  }

  lemma Begins(env: Env, d: Dec, max: u16, es: seq<Entry>) returns (t: Trip)
    requires WfEnv(env) && Idle(d, max, es)
    ensures On(env, Start(d, BUFFER), max, es, t) && t.l == [] && t.w == [] && t.evs == []
  {
    StartInv(d, BUFFER);
    FeedNothing(env);
    hide Inv; hide FeedAll; hide WfCode; hide AllGood;
    assert d.t.evs + [] == d.t.evs;
    t := Trip([], [], [], Start(d, BUFFER));
  }

  lemma Ends(env: Env, d: Dec, max: u16, es: seq<Entry>, t: Trip)
    requires On(env, Start(d, BUFFER), max, es, t) && t.w != []
    ensures Example(env, d, max, t.l, t.w, t.evs, es, t.d)
  {
    hide Inv; hide FeedAll; hide WfCode; hide AllGood; hide Wires;
  }

  lemma {:induction false} WiresMore(c: Code, l: seq<Instr>, i: Instr)
    requires WfCode(c)
    ensures Wires(c, l + [i]) == Wires(c, l) + Wire(c, i)
    decreases |l|
  {
    hide WfCode; hide Wire;
    if l == [] {
      assert l + [i] == [i] && [i][1..] == [];
    } else {
      assert (l + [i])[1..] == l[1..] + [i];
      WiresMore(c, l[1..], i);
    }
  }

  lemma EventsAssoc(a: seq<Event>, b: seq<Event>, c: seq<Event>)
    ensures a + b + c == a + (b + c)
  {
  }

  lemma Chain(env: Env, d0: Dec, w: seq<byte>, d: Dec, x: seq<byte>, d': Dec)
    requires FeedAll(env, Run(d0), w) == Run(d) && FeedAll(env, Run(d), x + []) == FeedAll(env, Run(d'), [])
    ensures FeedAll(env, Run(d0), w + x) == Run(d')
  {
    FeedAppend(env, Run(d0), w, x);
    FeedNothing(env);
    hide FeedAll;
    assert x + [] == x;
  }

  lemma AddDone(d: Dec, d': Dec, stat: seq<Entry>, es: seq<Entry>, i: Instr)
    requires var f := Meant(stat, es, i); d'.done == d.done + Packed(f.nam, f.val)
    ensures var f := Meant(stat, es, i); |d'.done| == |d.done| + |f.nam| + |f.val| + 2
  {
    hide Meant;
  }

  /** One field more. */
  lemma Add(env: Env, d0: Dec, max: u16, es: seq<Entry>, t: Trip, i: Instr) returns (r: Trip)
    requires On(env, d0, max, es, t) && |t.l| < 20 && WfInstr(env, es, i)
    requires var f := Meant(env.stat, es, i); |f.nam| + |f.val| <= 198
    ensures On(env, d0, max, Protocol.Next(env.stat, Enc(es, Size(max, -1, -1, -1)), i).es, r)
    ensures r.l == t.l + [i] && r.w == t.w + Wire(env.code, i) && r.evs == t.evs + ItemEvents(ItemOf(env.stat, es, max, i))
  {
    assert !i.Upd? && WfCode(env.code);
    var x := Wire(env.code, i);
    hide Inv; hide FeedAll; hide WfCode; hide Wires; hide Wire; hide WfInstr; hide WfEnv; hide Received;
    hide ItemEvents; hide ItemOf; hide Meant; hide Insert; hide Packed; hide Reported;
    WiresMore(env.code, t.l, i);
    var d := FieldWire(env, t.d, i, []);
    Chain(env, d0, t.w, t.d, x, d);
    ReceivedItem(env.stat, t.d.t, i);
    ReceivedReported(env.stat, t.d.t, i);
    AddDone(t.d, d, env.stat, es, i);
    var more := ItemEvents(ItemOf(env.stat, es, max, i));
    EventsAssoc(d0.t.evs, t.evs, more);
    r := Trip(t.l + [i], t.w + x, t.evs + more, d);
  }

  // ---- indexed fields ----

  lemma IdxOctet(c: Code, v: u16)
    requires WfCode(c) && v < 127
    ensures Wire(c, Idx(v)) == [0x80 + v]
  {
    Pow2Table();
    hide WfCode;
  }

  /** A field of the static or of the dynamic table. */
  lemma IndexedField(env: Env, d0: Dec, max: u16, es: seq<Entry>, t: Trip, v: u16, e: Entry) returns (r: Trip)
    requires On(env, d0, max, es, t) && |t.l| < 20
    requires 0 < v < 127 && Lookup(env.stat, es, v) == Some(e) && |e.nam| + |e.val| <= 198
    ensures On(env, d0, max, es, r) && r.l == t.l + [Idx(v)] && r.w == t.w + [0x80 + v]
    ensures r.evs == t.evs + [FieldEvt(v), NameEvt(e.nam), ValueEvt(e.val)]
  {
    IdxOctet(env.code, v);
    hide On; hide Lookup; hide WfCode; hide Evict; hide Wire; hide Insert; hide WfEnv; hide AllGood; hide Total;
    r := Add(env, d0, max, es, t, Idx(v));
    assert [FieldEvt(v)] + [] + [NameEvt(e.nam), ValueEvt(e.val)] == [FieldEvt(v), NameEvt(e.nam), ValueEvt(e.val)];
  }

  // ---- literal fields ----

  /** A string of valid octets, and how they are written. */
  ghost predicate Coded(c: Code, huf: bool, s: seq<byte>, o: seq<byte>)
    requires WfCode(c)
  {
    |o| < 127 && ValueOk(s) && o == Body(c, Str(huf, s))
  }

  function HBit(huf: bool): (b: byte)
    ensures b <= 0x80
  {
    if huf then 0x80 else 0x00
  }

  lemma StrOctets(c: Code, huf: bool, s: seq<byte>, o: seq<byte>)
    requires WfCode(c) && Coded(c, huf, s, o)
    ensures StrWire(c, Str(huf, s)) == [HBit(huf) + |o|] + o && WfStr(c, Str(huf, s))
  {
    Pow2Table();
    hide WfCode; hide Body; hide ValueOk;
  }

  /** A literal field whose name is an index. */
  lemma ByIndexOctets(c: Code, k: Kind, j: u16, huf: bool, s: seq<byte>, o: seq<byte>)
    requires WfCode(c) && Coded(c, huf, s, o) && j < (if k == Dyn then 63 else 15)
    ensures Wire(c, Lit(k, ByIndex(j), Str(huf, s))) == [KindPattern(k) + j, HBit(huf) + |o|] + o
  {
    StrOctets(c, huf, s, o);
    Pow2Table();
    hide WfCode; hide StrWire; hide Coded;
    assert [KindPattern(k) + j] + [] + ([HBit(huf) + |o|] + o) == [KindPattern(k) + j, HBit(huf) + |o|] + o;
  }

  /** A literal field whose name is written out. */
  lemma ByNameOctets(c: Code, k: Kind, huf: bool, nam: seq<byte>, m: seq<byte>, val: seq<byte>, o: seq<byte>)
    requires WfCode(c) && Coded(c, huf, nam, m) && Coded(c, huf, val, o)
    ensures Wire(c, Lit(k, ByName(Str(huf, nam)), Str(huf, val))) == [KindPattern(k), HBit(huf) + |m|] + m + [HBit(huf) + |o|] + o
  {
    StrOctets(c, huf, nam, m);
    StrOctets(c, huf, val, o);
    Pow2Table();
    var p: byte := KindPattern(k);
    assert Number(Lit(k, ByName(Str(huf, nam)), Str(huf, val))) == [p];
    hide WfCode; hide StrWire; hide Coded; hide Number;
    assert [p] + ([HBit(huf) + |m|] + m) + ([HBit(huf) + |o|] + o) == [p, HBit(huf) + |m|] + m + [HBit(huf) + |o|] + o;
  }

  /** A literal field that may be written, its name, and its octets. */
  ghost predicate Written(env: Env, es: seq<Entry>, k: Kind, n: Name, nam: seq<byte>, v: Str, x: seq<byte>)
    requires WfEnv(env)
  {
    WfInstr(env, es, Lit(k, n, v)) && x == Wire(env.code, Lit(k, n, v)) && NameOf(env.stat, es, n) == nam && |nam| + |v.s| <= 198
  }

  lemma IndexWritten(env: Env, es: seq<Entry>, k: Kind, j: u16, e: Entry, huf: bool, val: seq<byte>, o: seq<byte>)
    requires WfEnv(env) && Coded(env.code, huf, val, o) && Lookup(env.stat, es, j) == Some(e)
    requires j < (if k == Dyn then 63 else 15) && |e.nam| + |val| <= 198
    ensures Written(env, es, k, ByIndex(j), e.nam, Str(huf, val), [KindPattern(k) + j, HBit(huf) + |o|] + o)
  {
    ByIndexOctets(env.code, k, j, huf, val, o);
    StrOctets(env.code, huf, val, o);
    hide WfEnv; hide Wire; hide WfStr; hide ValueOk; hide Lookup; hide KindPattern; hide Body; hide WfCode;
  }

  lemma NameWritten(env: Env, es: seq<Entry>, k: Kind, huf: bool, nam: seq<byte>, m: seq<byte>, val: seq<byte>, o: seq<byte>)
    requires WfEnv(env) && Coded(env.code, huf, nam, m) && Coded(env.code, huf, val, o) && nam != [] && Token(nam) == OK
    requires |nam| + |val| <= 198
    ensures Written(env, es, k, ByName(Str(huf, nam)), nam, Str(huf, val),
                    [KindPattern(k), HBit(huf) + |m|] + m + [HBit(huf) + |o|] + o)
  {
    ByNameOctets(env.code, k, huf, nam, m, val, o);
    StrOctets(env.code, huf, nam, m);
    StrOctets(env.code, huf, val, o);
    hide WfEnv; hide Wire; hide WfStr; hide ValueOk; hide Token; hide KindPattern; hide Body; hide WfCode;
  }

  lemma AddWritten(env: Env, d0: Dec, max: u16, es: seq<Entry>, t: Trip, k: Kind, n: Name, nam: seq<byte>, v: Str,
                   x: seq<byte>)
    returns (r: Trip)
    requires On(env, d0, max, es, t) && |t.l| < 20 && Written(env, es, k, n, nam, v, x)
    ensures var i := Lit(k, n, v);
            && On(env, d0, max, Protocol.Next(env.stat, Enc(es, Size(max, -1, -1, -1)), i).es, r)
            && r.l == t.l + [i] && r.w == t.w + x && r.evs == t.evs + ItemEvents(ItemOf(env.stat, es, max, i))
            && Meant(env.stat, es, i) == Entry(nam, v.s)
  {
    hide Evict; hide Wire; hide WfInstr; hide ItemOf; hide ItemEvents; hide Insert; hide NameOf; hide WfEnv; hide WfCode;
    hide FeedAll; hide Idle; hide Wires;
    r := Add(env, d0, max, es, t, Lit(k, n, v));
  }

  /** A literal field that does not enter the table. */
  lemma PlainField(env: Env, d0: Dec, max: u16, es: seq<Entry>, t: Trip, never: bool, n: Name, nam: seq<byte>, v: Str, x: seq<byte>)
    returns (r: Trip)
    requires On(env, d0, max, es, t) && |t.l| < 20 && Written(env, es, if never then Nvr else Plain, n, nam, v, x)
    ensures On(env, d0, max, es, r) && r.l == t.l + [Lit(if never then Nvr else Plain, n, v)] && r.w == t.w + x
    ensures r.evs == t.evs + ([FieldEvt(0)] + (if never then [NeverEvt] else []) + [NameEvt(nam), ValueEvt(v.s)])
  {
    hide On; hide Written; hide Meant; hide Evict;
    r := AddWritten(env, d0, max, es, t, if never then Nvr else Plain, n, nam, v, x);
  }

  /** A literal field that enters the table, where the last `gone` entries make room for it. */
  lemma DynamicField(env: Env, d0: Dec, max: u16, es: seq<Entry>, t: Trip, n: Name, nam: seq<byte>, v: Str, x: seq<byte>, gone: nat)
    returns (r: Trip)
    requires On(env, d0, max, es, t) && |t.l| < 20 && Written(env, es, Dyn, n, nam, v, x)
    requires gone <= |es| && 32 + |nam| + |v.s| <= max && Makes(es, gone, 32 + |nam| + |v.s|, max)
    ensures On(env, d0, max, [Entry(nam, v.s)] + es[..|es| - gone], r) && r.l == t.l + [Lit(Dyn, n, v)] && r.w == t.w + x
    ensures r.evs == t.evs + ([FieldEvt(0), NameEvt(nam), ValueEvt(v.s)] + Evicted(gone) + [IndexEvt(32 + |nam| + |v.s|)])
  {
    hide On; hide Written; hide Makes; hide Evict; hide Total; hide Evicted; hide Meant;
    MakesRoom(es, gone, 32 + |nam| + |v.s|, max);
    r := AddWritten(env, d0, max, es, t, Dyn, n, nam, v, x);
    InsertedItem(env.stat, es, max, Lit(Dyn, n, v), gone);
  }

  lemma InsertedItem(stat: seq<Entry>, es: seq<Entry>, max: u16, i: Instr, gone: nat)
    requires i.Lit? && i.kind == Dyn && gone <= |es|
    requires var f := Meant(stat, es, i); EntrySize(f) <= max && Evict(es, Total(es) + EntrySize(f), max) == es[..|es| - gone]
    ensures var f := Meant(stat, es, i);
            && ItemEvents(ItemOf(stat, es, max, i))
               == [FieldEvt(0), NameEvt(f.nam), ValueEvt(f.val)] + Evicted(gone) + [IndexEvt(EntrySize(f))]
            && Protocol.Next(stat, Enc(es, Size(max, -1, -1, -1)), i).es == [f] + es[..|es| - gone]
  {
    hide Meant; hide Evict; hide Total; hide EntrySize; hide Evicted;
    var f := Meant(stat, es, i);
    assert [FieldEvt(0)] + [] + [NameEvt(f.nam), ValueEvt(f.val)] == [FieldEvt(0), NameEvt(f.nam), ValueEvt(f.val)];
  }

  // ---- the fields of the examples ----

  /** An entry of the static table. */
  ghost predicate Static(env: Env, v: u16, nam: seq<byte>, val: seq<byte>) {
    && 0 < v <= 61 && |nam| + |val| <= 198
    && forall es :: Lookup(env.stat, es, v) == Some(Entry(nam, val))
  }

  /** An indexed field of the static table. */
  lemma FixedField(env: Env, d0: Dec, max: u16, es: seq<Entry>, t: Trip, v: u16, nam: seq<byte>, val: seq<byte>) returns (r: Trip)
    requires On(env, d0, max, es, t) && |t.l| < 20 && Static(env, v, nam, val)
    ensures On(env, d0, max, es, r) && r.l == t.l + [Idx(v)] && r.w == t.w + [0x80 + v]
    ensures r.evs == t.evs + [FieldEvt(v), NameEvt(nam), ValueEvt(val)]
  {
    assert Lookup(env.stat, es, v) == Some(Entry(nam, val));
    hide On; hide Lookup; hide Static;
    r := IndexedField(env, d0, max, es, t, v, Entry(nam, val));
  }

  /** An indexed field of the dynamic table. */
  lemma RecentField(env: Env, d0: Dec, max: u16, es: seq<Entry>, t: Trip, k: nat) returns (r: Trip)
    requires On(env, d0, max, es, t) && |t.l| < 20 && k < |es| < 10 && |es[k].nam| + |es[k].val| <= 198
    ensures On(env, d0, max, es, r) && r.l == t.l + [Idx(62 + k)] && r.w == t.w + [0xbe + k]
    ensures r.evs == t.evs + [FieldEvt(62 + k), NameEvt(es[k].nam), ValueEvt(es[k].val)]
  {
    assert |env.stat| == 61;
    assert Lookup(env.stat, es, 62 + k) == Some(es[k]);
    hide On; hide Lookup;
    r := IndexedField(env, d0, max, es, t, 62 + k, es[k]);
  }

  /** What is sent of a field that enters the table. */
  function Entering(nam: seq<byte>, val: seq<byte>, gone: nat): seq<Event> {
    var n := 32 + |nam| + |val|;
    if gone == 0 then [FieldEvt(0), NameEvt(nam), ValueEvt(val), IndexEvt(n)]
    else [FieldEvt(0), NameEvt(nam), ValueEvt(val), EvictEvt(gone), IndexEvt(n)]
  }

  lemma EnteringIs(nam: seq<byte>, val: seq<byte>, gone: nat)
    ensures [FieldEvt(0), NameEvt(nam), ValueEvt(val)] + Evicted(gone) + [IndexEvt(32 + |nam| + |val|)] == Entering(nam, val, gone)
  {

  }

  lemma EnterWritten(env: Env, d0: Dec, max: u16, es: seq<Entry>, t: Trip, n: Name, nam: seq<byte>, huf: bool,
                     val: seq<byte>, x: seq<byte>, gone: nat)
    returns (r: Trip)
    requires On(env, d0, max, es, t) && |t.l| < 20 && Written(env, es, Dyn, n, nam, Str(huf, val), x)
    requires |nam| + |val| <= 166 && 198 <= max
    requires gone <= |es| && Makes(es, gone, 32 + |nam| + |val|, max)
    ensures On(env, d0, max, [Entry(nam, val)] + es[..|es| - gone], r)
    ensures r.l == t.l + [Lit(Dyn, n, Str(huf, val))] && r.w == t.w + x && r.evs == t.evs + Entering(nam, val, gone)
  {
    hide On; hide Written; hide Makes; hide Entering; hide Evicted; hide WfEnv;
    EnteringIs(nam, val, gone);
    r := DynamicField(env, d0, max, es, t, n, nam, Str(huf, val), x, gone);
  }

  lemma CodedFacts(c: Code, huf: bool, s: seq<byte>, o: seq<byte>)
    requires WfCode(c) && Coded(c, huf, s, o)
    ensures |o| < 127
  {
  }

  lemma OnFacts(env: Env, d0: Dec, max: u16, es: seq<Entry>, t: Trip)
    requires On(env, d0, max, es, t)
    ensures WfEnv(env) && WfCode(env.code)
  {
  }

  lemma StaticFacts(env: Env, es: seq<Entry>, v: u16, nam: seq<byte>, val: seq<byte>)
    requires Static(env, v, nam, val)
    ensures Lookup(env.stat, es, v) == Some(Entry(nam, val)) && 0 < v <= 61
  {
  }

  /** A literal field with a name of the static table, which enters the table. */
  lemma EnterField(env: Env, d0: Dec, max: u16, es: seq<Entry>, t: Trip, j: u16, nam: seq<byte>, other: seq<byte>,
                   huf: bool, val: seq<byte>, o: seq<byte>, gone: nat)
    returns (r: Trip)
    requires On(env, d0, max, es, t) && |t.l| < 20 && Static(env, j, nam, other) && Coded(env.code, huf, val, o)
    requires |nam| + |val| <= 166 && |o| < 127 && gone <= |es| && 198 <= max && Makes(es, gone, 32 + |nam| + |val|, max)
    ensures On(env, d0, max, [Entry(nam, val)] + es[..|es| - gone], r)
    ensures r.l == t.l + [Lit(Dyn, ByIndex(j), Str(huf, val))] && r.w == t.w + ([0x40 + j, HBit(huf) + |o|] + o)
    ensures r.evs == t.evs + Entering(nam, val, gone)
  {
    hide On; hide Coded; hide Static; hide Makes; hide Written; hide Entering; hide WfEnv; hide WfCode; hide Lookup; hide HBit;
    OnFacts(env, d0, max, es, t);
    StaticFacts(env, es, j, nam, other);
    CodedFacts(env.code, huf, val, o);
    IndexWritten(env, es, Dyn, j, Entry(nam, other), huf, val, o);
    r := EnterWritten(env, d0, max, es, t, ByIndex(j), nam, huf, val, [0x40 + j, HBit(huf) + |o|] + o, gone);
  }

  /** A literal field with a new name, which enters the table. */
  lemma EnterNew(env: Env, d0: Dec, max: u16, es: seq<Entry>, t: Trip, huf: bool, nam: seq<byte>, m: seq<byte>,
                 val: seq<byte>, o: seq<byte>)
    returns (r: Trip)
    requires On(env, d0, max, es, t) && |t.l| < 20 && Coded(env.code, huf, nam, m) && Coded(env.code, huf, val, o)
    requires |nam| + |val| <= 166 && |m| < 127 && |o| < 127 && nam != [] && Token(nam) == OK && 198 <= max && Makes(es, 0, 32 + |nam| + |val|, max)
    ensures On(env, d0, max, [Entry(nam, val)] + es, r)
    ensures r.l == t.l + [Lit(Dyn, ByName(Str(huf, nam)), Str(huf, val))]
    ensures r.w == t.w + ([0x40, HBit(huf) + |m|] + m + [HBit(huf) + |o|] + o) && r.evs == t.evs + Entering(nam, val, 0)
  {
    hide On; hide Coded; hide Makes; hide Written; hide Entering; hide WfEnv; hide WfCode; hide Token; hide HBit;
    OnFacts(env, d0, max, es, t);
    CodedFacts(env.code, huf, nam, m);
    CodedFacts(env.code, huf, val, o);
    NameWritten(env, es, Dyn, huf, nam, m, val, o);
    assert es[..|es| - 0] == es;
    r := EnterWritten(env, d0, max, es, t, ByName(Str(huf, nam)), nam, huf, val,
                      [0x40, HBit(huf) + |m|] + m + [HBit(huf) + |o|] + o, 0);
  }

  // ---- eviction ----

  /** The last `gone` entries have to go to make room for `n` octets, and no more of them. */
  predicate Makes(es: seq<Entry>, gone: nat, n: nat, lim: nat)
    requires gone <= |es|
  {
    Total(es[..|es| - gone]) + n <= lim && (gone > 0 ==> Total(es[..|es| - gone + 1]) + n > lim)
  }

  lemma {:induction false} MakesRoom(es: seq<Entry>, gone: nat, n: nat, lim: nat)
    requires gone <= |es| && Makes(es, gone, n, lim)
    ensures Evict(es, Total(es) + n, lim) == es[..|es| - gone]
    decreases gone
  {
    var k := |es|;
    if gone == 0 {
      assert es[..k] == es;
    } else {
      var s := es[..k - 1];
      assert s[..k - gone] == es[..k - gone];
      TotalLast(es);
      if gone == 1 {
        assert es[..k] == es;
      } else {
        assert s[..k - gone + 1] == es[..k - gone + 1];
        TotalPrefix(es, k - gone + 1);
      }
      MakesRoom(s, gone - 1, n, lim);
    }
  }

  lemma TotalPrefix(es: seq<Entry>, k: nat)
    requires k <= |es|
    ensures Total(es[..k]) <= Total(es)
  {
    assert es == es[..k] + es[k..];
    TotalAppend(es[..k], es[k..]);
  }
}

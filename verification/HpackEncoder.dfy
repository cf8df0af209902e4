/**
 The encoding half of the codec: lib/hpack_enc.c, HPI_encode, HPH_encode and the encoder of lib/hpack.c. Octets are put in a
 buffer of any size, and sent in a DATA event whenever it is full.
 */
module HpackEncoder {
  import opened Common
  import opened Bits
  import opened HuffmanCode
  import opened HuffmanEncode
  import opened IntSpec
  import opened Validate
  import opened TableSpec
  import opened TableBytes
  import opened HpackTbl
  import opened Aliasing
  import opened TableSearch
  import opened DecoderSpec
  import opened DecoderEvents
  import opened EncoderSpec
  import opened WireScan
  import opened Lockstep
  import opened Protocol
  import opened EncoderFields

  /** The octets of the DATA events, put together. */
  function Payload(evs: seq<Event>): seq<byte> {
    if evs == [] then []
    else
      var e := evs[|evs| - 1];
      Payload(evs[..|evs| - 1]) + if e.DataEvt? then e.octets else []
  }

  lemma PayloadNext(evs: seq<Event>, e: Event)
    ensures Payload(evs + [e]) == Payload(evs) + if e.DataEvt? then e.octets else []
  {
    assert (evs + [e])[..|evs|] == evs;
  }

  /** The other events: what the encoder tells its user besides the octets. */
  function Told(evs: seq<Event>): seq<Event> {
    if evs == [] then []
    else
      var e := evs[|evs| - 1];
      Told(evs[..|evs| - 1]) + if e.DataEvt? then [] else [e]
  }

  lemma ToldNext(evs: seq<Event>, e: Event)
    ensures Told(evs + [e]) == Told(evs) + if e.DataEvt? then [] else [e]
  {
    assert (evs + [e])[..|evs|] == evs;
  }

  /** Evictions and insertions that come with a field. */
  function Entered(x: Item): seq<Event> {
    if x.DynamicItem? then Evicted(x.evicted) + (if x.inserted then [IndexEvt(32 + |x.nam| + |x.val|)] else []) else []
  }

  /** What the encoder tells of an item: EVICT? TABLE for an update, FIELD EVICT? INDEX? for a field. */
  function Calls(x: Item): seq<Event> {
    if x.UpdateItem? then Evicted(x.evicted) + [TableEvt(x.lim)] else [FieldEvt(0)] + Entered(x)
  }

  function AllCalls(xs: seq<Item>): seq<Event> {
    if xs == [] then [] else AllCalls(xs[..|xs| - 1]) + Calls(xs[|xs| - 1])
  }

  lemma CallsNext(told: seq<Event>, xs: seq<Item>, x: Item)
    ensures told + AllCalls(xs) + Calls(x) == told + AllCalls(xs + [x])
  {
    hide Calls;
    assert (xs + [x])[..|xs|] == xs;
    assert told + AllCalls(xs) + Calls(x) == told + (AllCalls(xs) + Calls(x));
  }

  lemma CallsNone(told: seq<Event>)
    ensures told + AllCalls([]) == told
  {
  }

  lemma {:induction false} CallsAppend(told: seq<Event>, a: seq<Item>, b: seq<Item>)
    ensures told + AllCalls(a) + AllCalls(b) == told + AllCalls(a + b)
  {
    hide Calls;
    if b == [] {
      assert a + b == a;
      CallsNone(told + AllCalls(a));
    } else {
      var b', x := b[..|b| - 1], b[|b| - 1];
      CallsAppend(told, a, b');
      assert a + b == a + b' + [x];
      CallsNext(told, a + b', x);
      assert b' + [x] == b;
      CallsNext(told + AllCalls(a), b', x);
    }
  }

  /** The calls of one more field. */
  lemma AdvanceTold(stat: seq<Entry>, e: Enc, l: seq<Instr>, i: Instr, was: seq<Event>)
    ensures var at := AfterAll(stat, e, l);
            was + AllCalls(ItemsOf(stat, e, l)) + Calls(ItemOf(stat, at.es, Limit(at.sz), i)) == was + AllCalls(ItemsOf(stat, e, l + [i]))
  {
    ItemsMore(stat, e, l, i);
    var at := AfterAll(stat, e, l);
    CallsNext(was, ItemsOf(stat, e, l), ItemOf(stat, at.es, Limit(at.sz), i));
    hide Calls; hide AllCalls; hide ItemsOf; hide ItemOf; hide AfterAll;
  }

  /** One more item at the end. */
  lemma {:induction false} ItemsMore(stat: seq<Entry>, e: Enc, l: seq<Instr>, i: Instr)
    ensures var at := AfterAll(stat, e, l); ItemsOf(stat, e, l + [i]) == ItemsOf(stat, e, l) + [ItemOf(stat, at.es, Limit(at.sz), i)]
    decreases |l|
  {
    hide ItemOf; hide Next; hide Limit;
    if l == [] {
      assert l + [i] == [i] && [i][1..] == [];
    } else {
      assert (l + [i])[1..] == l[1..] + [i];
      ItemsMore(stat, Next(stat, e, l[0]), l[1..], i);
    }
  }

  /** Since the event `from`, no payload is empty or larger than the buffer. */
  ghost predicate Chunked(evs: seq<Event>, from: nat, cap: nat) {
    from <= |evs| && forall i :: from <= i < |evs| && evs[i].DataEvt? ==> 0 < |evs[i].octets| <= cap
  }

  lemma {:induction false} OctetsInjective(a: seq<byte>, b: seq<byte>)
    requires OfOctets(a) == OfOctets(b)
    ensures a == b
  {
    assert |a| == |b|;
    if a != [] {
      var x, y := OfOctets(a), OfOctets(b);
      assert x[..8] == Of(a[0], 8) && y[..8] == Of(b[0], 8);
      assert x[8..] == OfOctets(a[1..]) && y[8..] == OfOctets(b[1..]);
      Pow2Table();
      ValOf(a[0], 8);
      ValOf(b[0], 8);
      OctetsInjective(a[1..], b[1..]);
      assert a == [a[0]] + a[1..] && b == [b[0]] + b[1..];
    }
  }

  lemma OneOctet(s: seq<byte>, b: byte)
    ensures OfOctets(s + [b]) == OfOctets(s) + Of(b, 8)
  {
    OfOctetsAppend(s, [b]);
    assert [b][1..] == [];
    assert OfOctets([b]) == Of(b, 8);
  }

  lemma {:induction false} EncSnoc(c: Code, s: seq<byte>, b: byte)
    requires WfCode(c)
    ensures EncBits(c, s + [b]) == EncBits(c, s) + CodeOf(SymOf(c, b))
  {
    hide WfCode; hide CodeOf;
    if s == [] {
      assert s + [b] == [b] && [b][1..] == [];
    } else {
      assert (s + [b])[1..] == s[1..] + [b];
      EncSnoc(c, s[1..], b);
    }
  }

  class Encoder {
    const env: Env
    const hdrs: seq<Hdr>
    const hp: Hpack

    // struct hpack_ctx
    var buf: array<byte>
    var ptrLen: nat
    var canUpd: bool
    var res: Res
    var defunct: bool
    /** How many events were sent before this call. */
    ghost var from: nat
    /** What was told so far. */
    ghost var told: seq<Event>

    /** hpack_encoder, without a soft limit. */
    constructor (env: Env, hdrs: seq<Hdr>, hp: Hpack, buf: array<byte>)
      ensures this.env == env && this.hdrs == hdrs && this.hp == hp && this.buf == buf
      ensures res == OK && !defunct
    {
      this.env, this.hdrs, this.hp, this.buf := env, hdrs, hp, buf;
      ptrLen, canUpd, res, defunct, from, told := 0, false, OK, false, 0, [];
    }

    /** Everything written so far, sent or not. */
    ghost function Out(): seq<byte>
      reads `buf, `ptrLen, buf, hp`evs
    {
      Payload(hp.evs) + if ptrLen <= buf.Length then buf[..ptrLen] else []
    }

    /** There is room for an octet. */
    ghost predicate Writing()
      reads `buf, `ptrLen, `from, `told, hp`evs, hp`tooBig, hp`tbl
    {
      ptrLen < buf.Length && hp.tbl != buf && !hp.tooBig && Chunked(hp.evs, from, buf.Length) && told == Told(hp.evs)
    }

    /** HPE_send */
    method Send()
      requires ptrLen <= buf.Length && 0 < buf.Length && hp.tbl != buf && !hp.tooBig && Chunked(hp.evs, from, buf.Length)
      requires told == Told(hp.evs)
      modifies `ptrLen, hp`evs
      ensures Writing() && ptrLen == 0 && Out() == old(Out())
    {
      if ptrLen == 0 { return; }
      PayloadNext(hp.evs, DataEvt(buf[..ptrLen]));
      ToldNext(hp.evs, DataEvt(buf[..ptrLen]));
      hp.Notify(DataEvt(buf[..ptrLen]));
      ptrLen := 0;
    }

    /** HPE_putb */
    method PutB(b: byte)
      requires Writing()
      modifies buf, `ptrLen, hp`evs
      ensures Writing() && Out() == old(Out()) + [b]
    {
      ghost var was := buf[..ptrLen];
      buf[ptrLen] := b;
      ptrLen := ptrLen + 1;
      assert buf[..ptrLen] == was + [b];
      if ptrLen == buf.Length { Send(); }
    }

    /** Some octets that fit. */
    method Copy(s: seq<byte>)
      requires Writing() && ptrLen + |s| <= buf.Length && s != []
      modifies buf, `ptrLen, hp`evs
      ensures Writing() && Out() == old(Out()) + s
    {
      ghost var was := buf[..ptrLen];
      assert buf[..][..ptrLen] == was;
      MemCpy(buf, ptrLen, s);
      ptrLen := ptrLen + |s|;
      assert buf[..ptrLen] == buf[..][..ptrLen];
      assert buf[..ptrLen] == was + s;
      assert Payload(hp.evs) + was + s == Payload(hp.evs) + (was + s);
      if ptrLen == buf.Length { Send(); }
    }

    /** HPE_bcat */
    method BCat(s: seq<byte>)
      requires Writing()
      modifies buf, `ptrLen, hp`evs
      ensures Writing() && Out() == old(Out()) + s
    {
      hide Out; hide Chunked;
      var i := 0;
      ghost var was := Out();
      assert was + s[..0] == was;
      while i < |s|
        invariant i <= |s| && Writing() && Out() == was + s[..i]
      {
        var sz := buf.Length - ptrLen;
        if sz > |s| - i { sz := |s| - i; }
        assert was + s[..i] + s[i..i + sz] == was + s[..i + sz];
        Copy(s[i..i + sz]);
        i := i + sz;
      }
      assert s[..i] == s;
    }

    /** HPI_encode */
    method HpiEncode(pfx: prefix, pat: byte, val: u16)
      requires Writing() && pat + Mask(pfx) < 256
      modifies buf, `ptrLen, hp`evs
      ensures Writing() && Out() == old(Out()) + IntEnc(pfx, pat, val)
    {
      hide Out; hide Writing; hide Groups;
      var mask := Mask(pfx);
      ghost var was := Out();
      if val < mask {
        PutB(pat + val);
        return;
      }
      PutB(pat + mask);
      var v: nat := val - mask;
      ghost var sent: seq<byte> := [pat + mask];
      while v >= 0x80
        invariant Writing() && Out() == was + sent && sent + Groups(v) == [pat + mask] + Groups(val - mask)
      {
        PutB(0x80 + v % 0x80);
        GroupsStep(v, sent);
        assert was + sent + [0x80 + v % 0x80] == was + (sent + [0x80 + v % 0x80]);
        sent := sent + [0x80 + v % 0x80];
        v := v / 0x80;
      }
      GroupsEnd(v);
      PutB(v);
      assert was + sent + [v] == was + (sent + [v]);
    }

    /** HPH_size */
    method HphSize(s: seq<byte>) returns (sz: nat)
      requires WfCode(env.code)
      ensures sz == |HufEnc(env.code, s)|
    {
      hide WfCode; hide EncBits; hide CodeOf;
      sz := 7;
      EncNil(env.code);
      for i := 0 to |s|
        invariant sz == 7 + |EncBits(env.code, s[..i])|
      {
        assert s[..i + 1] == s[..i] + [s[i]];
        EncSnoc(env.code, s[..i], s[i]);
        sz := sz + SymOf(env.code, s[i]).len;
      }
      assert s[..|s|] == s;
      HuffmanRoundTrip(env.code, s);
      sz := sz / 8;
    }

    /** What HPH_encode has written is the code of a prefix of the string, up to the bits that are pending. */
    ghost predicate Encoding(was: seq<byte>, written: seq<byte>, pend: bits, acc: nat, sz: nat, code: bits)
      reads `buf, `ptrLen, `from, `told, buf, hp`evs, hp`tooBig, hp`tbl
    {
      && Writing() && Out() == was + written && OfOctets(written) + pend == code
      && acc < W64 && sz == |pend| && Pending(acc, pend)
    }

    /** The whole octets that are pending are written. */
    method Drain(acc: nat, sz: nat, ghost was: seq<byte>, ghost written: seq<byte>, ghost pend: bits, ghost code: bits)
      returns (sz': nat, ghost written': seq<byte>, ghost pend': bits)
      requires Encoding(was, written, pend, acc, sz, code)
      modifies buf, `ptrLen, hp`evs
      ensures Encoding(was, written', pend', acc, sz', code) && sz' < 8
    {
      hide Out; hide Writing; hide Pending; hide OfOctets; hide Val;
      sz', written', pend' := sz, written, pend;
      while sz' >= 8
        invariant Encoding(was, written', pend', acc, sz', code)
        decreases sz'
      {
        Pop(acc, pend');
        OfVal(pend'[..8]);
        var b: byte := acc / Pow2(sz' - 8) % 0x100;
        Popped(written', pend', b);
        sz' := sz' - 8;
        PutB(b);
        assert was + written' + [b] == was + (written' + [b]);
        written', pend' := written' + [b], pend'[8..];
      }
    }

    /** A symbol joins the pending bits. */
    method Symbol(b: byte, acc: nat, sz: nat, ghost was: seq<byte>, ghost written: seq<byte>, ghost pend: bits, ghost s: seq<byte>)
      returns (acc': nat, sz': nat, ghost written': seq<byte>, ghost pend': bits)
      requires WfCode(env.code) && Encoding(was, written, pend, acc, sz, EncBits(env.code, s)) && sz < 8
      modifies buf, `ptrLen, hp`evs
      ensures Encoding(was, written', pend', acc', sz', EncBits(env.code, s + [b])) && sz' < 8
    {
      hide WfCode; hide EncBits; hide CodeOf; hide Pow2; hide Out; hide Writing; hide Pending;
      SymBounds(env.code, b);
      var y := SymOf(env.code, b);
      Push(acc, pend, y);
      EncSnoc(env.code, s, b);
      assert OfOctets(written) + pend + CodeOf(y) == OfOctets(written) + (pend + CodeOf(y));
      acc' := Or(acc * Pow2(y.len) % W64, y.cod);
      sz', written', pend' := Drain(acc', sz + y.len, was, written, pend + CodeOf(y), EncBits(env.code, s + [b]));
    }

    /** The padding. */
    method Pad(acc: nat, sz: nat, ghost was: seq<byte>, ghost written: seq<byte>, ghost pend: bits, ghost s: seq<byte>)
      requires WfCode(env.code) && Encoding(was, written, pend, acc, sz, EncBits(env.code, s)) && sz < 8
      modifies buf, `ptrLen, hp`evs
      ensures Writing() && Out() == was + HufEnc(env.code, s)
    {
      hide Ones; hide Pending; hide Or; hide Val; hide Of; hide CodeOf; hide Chunked;
      hide WfCode; hide EncBits; hide Out; hide Writing; hide HufEnc; hide OfOctets;
      if sz > 0 {
        Flush(acc, pend);
        OfVal(pend + Ones(8 - sz));
        var b: byte := Or(acc * Pow2(8 - sz) % W64, Pow2(8 - sz) - 1) % 0x100;
        PutB(b);
        LastOctet(env.code, s, written, pend, b);
        assert was + written + [b] == was + (written + [b]);
      } else {
        NoPadding(env.code, s, written);
        assert OfOctets(written) + [] == OfOctets(written);
      }
    }

    /** HPH_encode */
    method HphEncode(s: seq<byte>)
      requires Writing() && WfCode(env.code)
      modifies buf, `ptrLen, hp`evs
      ensures Writing() && Out() == old(Out()) + HufEnc(env.code, s)
    {
      hide WfCode; hide EncBits; hide Pow2; hide Out; hide Writing; hide HufEnc;
      var bits: nat, sz: nat := 0, 0;
      ghost var was: seq<byte>, written: seq<byte>, pend: bits := Out(), [], [];
      EncNil(env.code);
      assert was + [] == was && OfOctets([]) + [] == [];
      NothingPending();
      assert s[..0] == [];
      for i := 0 to |s|
        invariant Encoding(was, written, pend, bits, sz, EncBits(env.code, s[..i])) && sz < 8
      {
        assert s[..i + 1] == s[..i] + [s[i]];
        bits, sz, written, pend := Symbol(s[i], bits, sz, was, written, pend, s[..i]);
      }
      assert s[..|s|] == s;
      Pad(bits, sz, was, written, pend, s);
    }

    /** The encoder at the start of a field, or between two parts of it. */
    ghost predicate Live()
      reads `buf, `ptrLen, `from, `told, hp, hp.tbl
    {
      Writing() && hp.Valid() && !hp.mon && hp.sz.lim < 0 && WfEnv(env) && WfHdrs(env.stat, hdrs)
    }

    ghost function State(): Enc
      reads hp`es, hp`sz
    {
      Enc(hp.es, hp.sz)
    }

    /** The buffer is what it was, and so are the payloads. */
    twostate lemma OutKept()
      requires buf == old(buf) && ptrLen == old(ptrLen) && unchanged(buf) && Payload(hp.evs) == old(Payload(hp.evs))
      ensures Out() == old(Out())
    {
    }

    lemma LiveParts()
      requires Live()
      ensures hp.Valid() && !hp.mon && hp.sz.lim < 0 && WfEnv(env) && WfHdrs(env.stat, hdrs)
      ensures ptrLen < buf.Length && hp.tbl != buf && !hp.tooBig && Chunked(hp.evs, from, buf.Length) && told == Told(hp.evs)
    {
    }

    lemma LiveIs()
      requires ptrLen < buf.Length && hp.tbl != buf && !hp.tooBig && Chunked(hp.evs, from, buf.Length) && told == Told(hp.evs)
      requires !hp.mon && hp.sz.lim < 0 && WfEnv(env) && WfHdrs(env.stat, hdrs)
      ensures Live() <==> hp.Valid()
    {
    }

    lemma LiveFacts()
      requires Live()
      ensures WfEnv(env) && WfCode(env.code) && |env.stat| == STATIC && WfHdrs(env.stat, hdrs)
      ensures hp.Fits() && !hp.mon && AllGood(hp.es) && hp.cnt == |hp.es| && WfSize(hp.sz)
    {
      hide WfCode; hide AllGood; hide WfHdrs;
    }

    /** The integer that starts a representation. */
    method PutNumber(pfx: prefix, pat: byte, v: u16)
      requires Live() && pat + Mask(pfx) < 256
      modifies buf, `ptrLen, hp`evs
      ensures Live() && Out() == old(Out()) + IntEnc(pfx, pat, v)
    {
      hide WfEnv; hide WfHdrs; hide Hpack.Valid; hide Out; hide Chunked; hide IntEnc;
      HpiEncode(pfx, pat, v);
    }

    /** The octets of a string. */
    method PutBody(t: Str)
      requires Live()
      modifies buf, `ptrLen, hp`evs
      ensures Live() && Out() == old(Out()) + Body(env.code, t)
    {
      LiveFacts();
      hide WfEnv; hide WfHdrs; hide WfCode; hide Hpack.Valid; hide Out; hide Chunked; hide HufEnc;
      if t.huf {
        HphEncode(t.s);
      } else {
        BCat(t.s);
      }
    }

    /** The second half of hpack_encode_string: the length and the octets. */
    method PutString(t: Str)
      requires Live() && |t.s| < 0x1_0000
      modifies buf, `ptrLen, hp`evs
      ensures Live() && Out() == old(Out()) + StrWire(env.code, t)
    {
      hide Live; hide WfEnv; hide WfHdrs; hide WfCode; hide Out; hide Body; hide HufEnc; hide IntEnc; hide StrWire; hide AllGood;
      LiveFacts();
      StrWireIs(env.code, t, Out());
      if t.huf {
        var len := HphSize(t.s);
        PutNumber(7, 0x80, len % 0x1_0000);
      } else {
        PutNumber(7, 0x00, |t.s|);
      }
      PutBody(t);
    }

    /** hpack_encode_string */
    method EncodeString(t: Str, name: bool) returns (ok: bool)
      requires Live() && (name ==> t.s != [])
      modifies buf, `ptrLen, `res, hp`evs
      ensures ok <==> CheckString(name, t.s) == OK
      ensures if ok then Live() && res == old(res) && Out() == old(Out()) + StrWire(env.code, t) else res == CheckString(name, t.s)
    {
      LiveFacts();
      hide Live; hide Out; hide Token; hide ValueOk; hide StrWire; hide WfEnv; hide WfCode;
      if !(|t.s| <= 0xffff) { res := INT; return false; }
      if name {
        var r := HpvToken(t.s);
        if r != OK { res := r; return false; }
      } else {
        var valOk := HpvValue(t.s);
        if !valOk { res := CHR; return false; }
      }
      PutString(t);
      return true;
    }

    /** hpack_encode_field */
    method EncodeField(i: Instr) returns (ok: bool)
      requires Live() && i.Lit? && (i.nam.ByName? ==> i.nam.n.s != [])
      modifies buf, `ptrLen, `res, hp`evs
      ensures ok <==> Check(env.stat, hp.es, Some(i)) == OK
      ensures if ok then Live() && res == old(res) && Out() == old(Out()) + Wire(env.code, i) else res == Check(env.stat, hp.es, Some(i))
    {
      hide Total; hide EntrySize; hide Good; hide WfSize; hide Writing; hide Hpack.Valid; hide Hpack.Fits; hide Chunked;
      hide KindPrefix;
      LiveFacts();
      hide Live; hide WfEnv; hide WfHdrs; hide WfCode; hide Out; hide StrWire; hide IntEnc; hide CheckString;
      Pow2Table();
      var idx := 0;
      if i.nam.ByIndex? {
        idx := i.nam.idx;
        if !(idx > 0 && idx <= hp.cnt + STATIC) { res := IDX; return false; }
      }
      ghost var was, n := Out(), if i.nam.ByName? then StrWire(env.code, i.nam.n) else [];
      PutNumber(KindPrefix(i.kind), KindPattern(i.kind), idx);
      assert was + Number(i) + [] == was + Number(i);
      if i.nam.ByName? {
        ok := EncodeString(i.nam.n, true);
        if !ok { return; }
      }
      assert Out() == was + Number(i) + n;
      ok := EncodeString(i.val, false);
      Joined(was, Number(i), n);
      Joined(was, Number(i) + n, StrWire(env.code, i.val));
    }

    /** HPT_index, seen from the output. */
    method PutEntry(nam: seq<byte>, at: Option<nat>, val: seq<byte>)
      requires Live() && Good(Entry(nam, val)) && hp.Source(nam, at)
      modifies `told, hp`evs, hp`len, hp`cnt, hp`es, hp.tbl
      ensures Live() <==> Insertable(old(hp.es), Limit(hp.sz), Entry(nam, val), at)
      ensures told == old(told) + Indexing(old(hp.es), Limit(hp.sz), Entry(nam, val))
      ensures Out() == old(Out()) && State() == Enc(Insert(old(hp.es), Entry(nam, val), Limit(old(hp.sz))), old(hp.sz))
    {
      LiveFacts();
      LiveParts();
      hide AllGood; hide Good;
      IndexFacts(hp.State(), Entry(nam, val), from, buf.Length);
      hide WfEnv; hide WfHdrs; hide Hpack.Fits; hide Total; hide Evict; hide TableSpec.Index; hide Payload; hide Chunked;
      hide Insert;
      hide Hpack.Source; hide Hpack.Valid; hide Insertable; hide Indexing; hide Told; hide Live; hide Writing; hide Out; hide Limit;
      hide EntrySize; hide WfSize;
      told := told + Indexing(hp.es, Limit(hp.sz), Entry(nam, val));
      hp.Index(nam, at, val);
      OutKept();
      LiveIs();
    }

    /** The second half of hpack_encode_dynamic: the field enters the table. */
    method InsertField(i: Instr)
      requires Live() && i.Lit? && i.kind == Dyn && (i.nam.ByName? ==> i.nam.n.s != [])
      requires Check(env.stat, hp.es, Some(i)) == OK
      modifies `told, hp`evs, hp`len, hp`cnt, hp`es, hp.tbl
      ensures Live() <==> Safe(env.stat, old(State()), i)
      ensures told == old(told) + Entered(ItemOf(env.stat, old(hp.es), Limit(hp.sz), i))
      ensures Out() == old(Out()) && State() == Next(env.stat, old(State()), i)
    {
      LiveFacts();
      CheckedIsGood(env, hp.es, i);
      hide Live; hide WfEnv; hide WfCode; hide Out; hide Check; hide Good; hide AllGood; hide Safe; hide Next;
      hide Insertable; hide Insert; hide WfHdrs; hide Lookup; hide Hpack.Fits;
      var nam, at: Option<nat> := [], None;
      if i.nam.ByIndex? {
        var hf;
        hf, at := hp.Field(env.stat, i.nam.idx);
        nam := hf.value.nam;
      } else {
        nam := i.nam.n.s;
      }
      SafeIs(env.stat, State(), i, at);
      EnteredIs(env.stat, hp.es, Limit(hp.sz), i);
      hide Entered; hide ItemOf; hide Indexing;
      PutEntry(nam, at, i.val.s);
    }

    /** hpack_encode_dynamic */
    method EncodeDynamic(i: Instr) returns (ok: bool)
      requires Live() && i.Lit? && i.kind == Dyn && (i.nam.ByName? ==> i.nam.n.s != [])
      modifies buf, `ptrLen, `res, `told, hp`evs, hp`len, hp`cnt, hp`es, hp.tbl
      ensures ok <==> Check(env.stat, old(hp.es), Some(i)) == OK
      ensures if ok then
                && (Live() <==> Safe(env.stat, old(State()), i)) && res == old(res)
                && Out() == old(Out()) + Wire(env.code, i) && State() == Next(env.stat, old(State()), i)
                && told == old(told) + Entered(ItemOf(env.stat, old(hp.es), Limit(hp.sz), i))
              else res == Check(env.stat, old(hp.es), Some(i))
    {
      LiveFacts();
      hide Live; hide WfEnv; hide WfHdrs; hide WfCode; hide Out; hide Wire; hide Safe; hide Next; hide Check; hide Entered;
      hide ItemOf;
      ok := EncodeField(i);
      if ok { InsertField(i); }
    }

    /** hpack_encode_indexed */
    method EncodeIndexed(idx: u16) returns (ok: bool)
      requires Live()
      modifies buf, `ptrLen, `res, hp`evs
      ensures ok <==> Check(env.stat, hp.es, Some(Idx(idx))) == OK
      ensures if ok then Live() && res == old(res) && Out() == old(Out()) + Wire(env.code, Idx(idx))
              else res == Check(env.stat, hp.es, Some(Idx(idx))) == IDX
    {
      LiveFacts();
      hide Live; hide WfEnv; hide WfHdrs; hide WfCode; hide Out; hide IntEnc;
      Pow2Table();
      if !(idx > 0 && idx <= hp.cnt + STATIC) { res := IDX; return false; }
      PutNumber(7, 0x80, idx);
      return true;
    }

    /** An event without octets. */
    method Tell(e: Event)
      requires Live() && !e.DataEvt?
      modifies `told, hp`evs
      ensures Live() && Out() == old(Out()) && told == old(told) + [e]
    {
      hide WfEnv; hide WfHdrs; hide Hpack.Valid; hide Payload; hide Chunked; hide Told;
      ToldNext(hp.evs, e);
      told := told + [e];
      NoteQuiet(hp.State(), e, from, buf.Length);
      hp.Notify(e);
    }

    /** The table takes new limits. */
    method NewLimits(s: Size)
      requires Live() && WfSize(s) && s.lim < 0 && s.max <= hp.mem && s.nxt <= hp.mem
      modifies `told, hp`evs, hp`sz, hp`len, hp`cnt, hp`es
      ensures Live() && Out() == old(Out()) && hp.State() == Adjust(old(hp.State()).(sz := s), Total(old(hp.es)))
    {
      LiveParts();
      ghost var t := hp.State().(sz := s);
      AdjustFacts(t, Total(t.es), from, buf.Length);
      hide WfEnv; hide WfHdrs; hide Hpack.Fits; hide Hpack.Valid; hide Total; hide Evict; hide Adjust; hide Payload; hide Chunked;
      hide WfSize; hide Told; hide Evicted; hide Live; hide Writing; hide Out; hide Limit;
      told := Told(Adjust(t, Total(t.es)).evs);
      hp.SetLimits(s);
      OutKept();
      LiveIs();
    }

    /** What new limits do to the table, and what is told of it. */
    lemma LimitsFacts(t: Tab, s: Size)
      requires !t.tooBig && s.lim < 0
      ensures var r := Adjust(t.(sz := s), Total(t.es));
              && r.sz == s && r.es == Evict(t.es, Total(t.es), s.max) && |r.es| <= |t.es|
              && Told(r.evs) == Told(t.evs) + Evicted(|t.es| - |r.es|)
    {
      AdjustFacts(t.(sz := s), Total(t.es), 0, 0);
      hide Adjust; hide Told; hide Evicted; hide Evict; hide Total; hide Payload; hide Chunked;
    }

    /** The same, seen from the encoder. */
    method LimitTable(s: Size)
      requires Live() && WfSize(s) && s.lim < 0 && s.max <= hp.mem && s.nxt <= hp.mem
      modifies `told, hp`evs, hp`sz, hp`len, hp`cnt, hp`es
      ensures Live() && Out() == old(Out()) && State() == Enc(Evict(old(hp.es), Total(old(hp.es)), s.max), s)
      ensures var n := |old(hp.es)| - |hp.es|; n >= 0 && told == old(told) + Evicted(n)
    {
      hide Live; hide Out; hide Total; hide Evict; hide WfSize; hide Adjust; hide Told; hide Evicted; hide Hpack.Valid; hide WfEnv;
      hide WfHdrs; hide Chunked; hide Writing; hide Limit; hide Hpack.Fits;
      LiveParts();
      LimitsFacts(hp.State(), s);
      NewLimits(s);
      LiveParts();
    }

    /** A change of the limits: hpack_encode_update between its tests. */
    method PutUpdate(lim: u16, s: Size)
      requires Live() && WfSize(s) && s.lim < 0 && s.max <= hp.mem && s.nxt <= hp.mem
      modifies buf, `ptrLen, `told, hp`evs, hp`sz, hp`len, hp`cnt, hp`es
      ensures Live() && Out() == old(Out()) + Number(Upd(lim)) && State() == Enc(Evict(old(hp.es), Total(old(hp.es)), s.max), s)
      ensures var n := |old(hp.es)| - |hp.es|; n >= 0 && told == old(told) + Calls(UpdateItem(n, lim))
    {
      hide Live; hide Out; hide Total; hide Evict; hide IntEnc; hide WfSize; hide Evicted; hide Calls;
      Pow2Table();
      ghost var was := told;
      LimitTable(s);
      PutNumber(5, 0x20, lim);
      Tell(TableEvt(lim));
      UpdateCalls(was, |old(hp.es)| - |hp.es|, lim);
    }

    /** What is left to announce. */
    method SetPending(n: int)
      requires Live() && (n == -1 || 0 <= n == hp.sz.nxt)
      modifies hp`sz
      ensures Live() && hp.sz == old(hp.sz).(nxt := n, min := n)
    {
      hide WfEnv; hide WfHdrs; hide AllGood; hide Total; hide Writing; hide IsTable;
      hp.sz := hp.sz.(nxt := n, min := n);
    }

    /** hpack_encode_update */
    method EncodeUpdate(lim: u16)
      requires Live() && canUpd && 0 <= hp.sz.min == lim
      modifies buf, `ptrLen, `canUpd, `told, hp`evs, hp`sz, hp`len, hp`cnt, hp`es
      ensures Live() && Out() == old(Out()) + Number(Upd(lim))
      ensures var n := |old(hp.es)| - |hp.es|; n >= 0 && told == old(told) + Calls(UpdateItem(n, lim))
      ensures hp.es == Evict(old(hp.es), Total(old(hp.es)), lim)
      ensures if lim < old(hp.sz.nxt) then canUpd && hp.sz == Size(lim, -1, old(hp.sz.nxt), old(hp.sz.nxt))
              else !canUpd && hp.sz == Size(lim, -1, -1, -1)
    {
      hide Live; hide Out; hide Total; hide Evict; hide Number; hide AllGood; hide WfEnv; hide WfHdrs; hide WfCode; hide Calls;
      LiveFacts();
      var s := hp.sz;
      if s.min < s.nxt {
        PutUpdate(lim, Size(lim, -1, s.nxt, s.min));
        SetPending(s.nxt);
      } else {
        PutUpdate(lim, Size(lim, -1, s.nxt, s.nxt));
        SetPending(-1);
        canUpd := false;
      }
    }

    /** The updates at the start of a block. */
    method Announce()
      requires Live() && canUpd && 0 <= hp.sz.min
      modifies buf, `ptrLen, `canUpd, `told, hp`evs, hp`sz, hp`len, hp`cnt, hp`es
      ensures Live() && Out() == old(Out()) + Wires(env.code, Announced(old(hp.sz))) && State() == Settled(old(State())) && !canUpd
      ensures told == old(told) + AllCalls(AnnouncedItems(old(State())))
    {
      LiveFacts();
      hide Live; hide WfEnv; hide WfHdrs; hide WfCode; hide Out; hide AllGood; hide Total; hide Evict; hide Number; hide Hpack.Fits;
      hide Calls; hide AllCalls; hide AnnouncedItems; hide Announced; hide Wires; hide WfSize; hide Limit;
      ghost var was, s, es, before := Out(), hp.sz, hp.es, told;
      EncodeUpdate(hp.sz.min);
      if hp.sz.nxt >= 0 {
        EncodeUpdate(hp.sz.nxt);
        AnnouncedTwice(env.code, s, was);
        TwiceCalled(Enc(es, s), before);
        EvictBounded(es, s.min);
        EvictNothing(Evict(es, Total(es), s.min), Total(Evict(es, Total(es), s.min)), s.nxt);
      } else {
        AnnouncedOnce(env.code, s, was);
        OnceCalled(Enc(es, s), before);
      }
    }

    /** hpack_auto_index */
    method AutoIndex(f: Field) returns (g: Field)
      requires Live() && f.aut
      ensures g == f.(typ := g.typ, namIdx := g.namIdx, idx := g.idx, nidx := g.nidx) && (WfField(f) ==> WfField(g))
      ensures forall i :: Chosen(env.stat, hp.es, g.(aut := false), i) ==> Chosen(env.stat, hp.es, f, i)
    {
      hide Hpack.Fits; hide Good; hide Order;
      LiveFacts();
      hide Live; hide WfEnv; hide WfHdrs; hide WfCode; hide Lookup;
      g := f;
      if f.typ == TIdx || f.namIdx { return; }
      var val := if f.typ == TNvr then None else Some(f.val);
      g := g.(idx := 0, nidx := 0);
      var r, idx := HpackSearch(hp, env.stat, hdrs, f.nam, val);
      if r == NAM {
        g := g.(namIdx := true, nidx := idx);
      } else if r == OK {
        g := g.(typ := TIdx, idx := idx);
      }
    }

    /** The switch of hpack_encode: a field is encoded as it says. `r` is what hpack_encode returns if it is not OK. */
    method EncodeAs(g: Field) returns (r: Res, ghost i: Option<Instr>)
      requires Live() && WfField(g) && !g.aut
      requires forall i :: Chosen(env.stat, hp.es, g, Some(i)) && Check(env.stat, hp.es, Some(i)) == OK ==> Safe(env.stat, State(), i)
      modifies buf, `ptrLen, `res, `told, hp`evs, hp`len, hp`cnt, hp`es, hp.tbl
      ensures Chosen(env.stat, old(hp.es), g, i) && r == Check(env.stat, old(hp.es), i)
      ensures r == OK ==>
                Live() && res == old(res) && Out() == old(Out()) + Wire(env.code, i.value)
                && State() == Next(env.stat, old(State()), i.value)
                && told == old(told) + Entered(ItemOf(env.stat, old(hp.es), Limit(hp.sz), i.value))
    {
      hide Live; hide WfEnv; hide WfHdrs; hide WfCode; hide Out; hide Wire; hide Safe; hide Check; hide Evict; hide Total;
      hide Entered; hide ItemOf; hide Indexing; hide AllGood; hide WfSize; hide Limit; hide Hpack.Fits; hide Hpack.Valid;
      LiveFacts();
      if g.typ == TIdx {
        i := Some(Idx(g.idx));
        EnteredIs(env.stat, hp.es, Limit(hp.sz), Idx(g.idx));
        var ok := EncodeIndexed(g.idx);
        return if ok then OK else res, i;
      }
      var n := if g.namIdx then ByIndex(g.nidx) else ByName(Str(g.namHuf, g.nam));
      var l := Literal(g, n);
      i := l;
      match l {
        case None =>
          NoType(env.stat, hp.es);
          return ARG, i;
        case Some(x) =>
          var ok;
          EnteredIs(env.stat, hp.es, Limit(hp.sz), x);
          if g.typ == TDyn {
            ok := EncodeDynamic(x);
          } else {
            ok := EncodeField(x);
          }
          return if ok then OK else res, i;
      }
    }

    /** The loop body of hpack_encode. */
    method EncodeOne(f: Field) returns (r: Res, ghost i: Option<Instr>)
      requires Live() && WfField(f)
      requires forall i :: Chosen(env.stat, hp.es, f, Some(i)) && Check(env.stat, hp.es, Some(i)) == OK ==> Safe(env.stat, State(), i)
      modifies buf, `ptrLen, `res, `told, hp`evs, hp`len, hp`cnt, hp`es, hp.tbl
      ensures Chosen(env.stat, old(hp.es), f, i) && r == Check(env.stat, old(hp.es), i)
      ensures r == OK ==>
                Live() && res == old(res) && Out() == old(Out()) + Wire(env.code, i.value)
                && State() == Next(env.stat, old(State()), i.value)
                && told == old(told) + Calls(ItemOf(env.stat, old(hp.es), Limit(hp.sz), i.value))
    {
      hide Live; hide Out; hide Wire; hide Safe; hide Check; hide Chosen; hide WfCode; hide WfEnv; hide Entered;
      var g := f;
      if f.aut { g := AutoIndex(f); }
      ghost var was := told;
      Tell(FieldEvt(0));
      assert !f.aut ==> g.(aut := false) == f;
      r, i := EncodeAs(g.(aut := false));
      if r == OK {
        CheckSome(env.stat, old(hp.es), i);
        FieldCalls(was, env.stat, old(hp.es), Limit(hp.sz), i.value);
      }
    }

    /** Between two calls of hpack_encode. */
    ghost predicate Ready()
      reads this, hp, hp.tbl
    {
      && !defunct && hp.Valid() && !hp.mon && !hp.tooBig && hp.sz.lim < 0 && WfEnv(env) && WfHdrs(env.stat, hdrs)
      && (res == OK || (res == BLK && !canUpd && hp.sz.min < 0))
    }

    lemma ReadyFacts()
      requires Ready()
      ensures WfEnv(env) && WfCode(env.code) && WfSize(hp.sz) && !defunct && hp.sz.lim < 0
    {
      hide WfCode;
    }

    /** The beginning of hpack_encode. */
    method Begin(b: array<byte>)
      requires Ready() && hp.tbl != b && b.Length > 0
      modifies `buf, `ptrLen, `from, `canUpd, `res, `told, b, hp`evs, hp`sz, hp`len, hp`cnt, hp`es
      ensures Live() && buf == b && from == |old(hp.evs)| && !canUpd && res == BLK
      ensures State() == Settled(old(State())) && Out() == old(Payload(hp.evs)) + Wires(env.code, Announced(old(hp.sz)))
      ensures told == old(Told(hp.evs)) + AllCalls(AnnouncedItems(old(State())))
    {
      hide WfEnv; hide WfHdrs; hide Payload; hide Evict; hide Total; hide Told; hide AllCalls; hide Hpack.Valid; hide WfCode;
      hide AllGood; hide WfSize;
      if res != BLK {
        canUpd := true;
        res := BLK;
      }
      buf, ptrLen, from, told := b, 0, |hp.evs|, Told(hp.evs);
      CallsNone(told);
      LiveFacts();
      ghost var was := Payload(hp.evs);
      assert Out() == was + [];
      if canUpd && hp.sz.min >= 0 {
        assert was + [] == was;
        hide Live; hide Out; hide Settled; hide Announced;
        Announce();
      }
      canUpd := false;
    }

    /** The first `k` fields were encoded as `l`. */
    ghost predicate Progress(start: Enc, head: seq<byte>, was: seq<Event>, fields: seq<Field>, k: nat, l: seq<Instr>)
      reads `buf, `ptrLen, `from, `told, buf, hp, hp.tbl
    {
      && Live() && k == |l| <= |fields|
      && Represents(env.stat, start, fields[..k], l) && State() == AfterAll(env.stat, start, l)
      && Out() == head + Wires(env.code, l) && SafeRun(env.stat, State(), fields[k..])
      && told == was + AllCalls(ItemsOf(env.stat, start, l))
    }

    /** The next field. */
    method EncodeNext(fields: seq<Field>, k: nat, ghost start: Enc, ghost head: seq<byte>, ghost was: seq<Event>, ghost l: seq<Instr>)
      returns (r: Res, ghost l': seq<Instr>)
      requires Progress(start, head, was, fields, k, l) && k < |fields| && WfField(fields[k])
      modifies buf, `ptrLen, `res, `told, hp`evs, hp`len, hp`cnt, hp`es, hp.tbl
      ensures if r == OK then Progress(start, head, was, fields, k + 1, l') && res == old(res) else Refused(env.stat, start, fields, l', r)
    {
      LiveFacts();
      hide Calls; hide AllCalls; hide ItemsOf; hide ItemOf;
      hide Live; hide Out; hide WfEnv; hide WfHdrs; hide WfCode; hide Wires; hide Chosen; hide Check; hide Represents;
      hide AfterAll; hide SafeRun; hide Wire; hide Next; hide Safe; hide WfField; hide Refused; hide Limit; hide AllGood;
      hide WfSize;
      SafeNext(env.stat, State(), fields[k..]);
      ghost var i;
      r, i := EncodeOne(fields[k]);
      l' := l;
      if r != OK {
        RefusedHere(env.stat, start, fields, k, l, i);
        return;
      }
      Advance(env.code, env.stat, start, fields, k, l, i, head);
      AdvanceTold(env.stat, start, l, i.value, was);
      l' := l + [i.value];
    }

    /** The loop of hpack_encode. */
    method EncodeAll(fields: seq<Field>) returns (r: Res, ghost l: seq<Instr>)
      requires Live() && (forall f :: f in fields ==> WfField(f)) && SafeRun(env.stat, State(), fields)
      modifies buf, `ptrLen, `res, `told, hp`evs, hp`len, hp`cnt, hp`es, hp.tbl
      ensures if r == OK then
                && Live() && res == old(res) && Represents(env.stat, old(State()), fields, l)
                && told == old(told) + AllCalls(ItemsOf(env.stat, old(State()), l))
                && State() == AfterAll(env.stat, old(State()), l) && Out() == old(Out()) + Wires(env.code, l)
              else Refused(env.stat, old(State()), fields, l, r)
    {
      hide Live; hide Out; hide WfEnv; hide WfCode; hide Wires; hide Represents; hide AfterAll; hide SafeRun; hide WfField;
      hide Refused;
      hide AllGood; hide WfHdrs;
      LiveFacts();
      hide AllCalls;
      ghost var start, head, was := State(), Out(), told;
      l := [];
      NoneYet(env.code, env.stat, start, head);
      CallsNone(was);
      assert fields[..0] == [] && fields[0..] == fields;
      var k := 0;
      while k < |fields|
        invariant Progress(start, head, was, fields, k, l) && res == old(res)
        decreases |fields| - k
      {
        r, l := EncodeNext(fields, k, start, head, was, l);
        if r != OK { return; }
        k := k + 1;
      }
      assert fields[..k] == fields;
      r := OK;
    }

    /** The end of hpack_encode. */
    method Finish(cut: bool)
      requires Live() && !defunct && !canUpd && hp.sz.min < 0
      modifies `ptrLen, `res, hp`evs
      ensures Ready() && res == (if cut then BLK else OK)
      ensures Payload(hp.evs) == old(Out()) && Chunked(hp.evs, from, buf.Length) && State() == old(State()) && Told(hp.evs) == told
    {
      hide WfEnv; hide WfHdrs; hide Hpack.Valid; hide Chunked; hide Payload; hide Told;
      Send();
      assert Payload(hp.evs) + [] == Payload(hp.evs);
      res := if cut then BLK else OK;
    }

    /** hpack_encode */
    method Encode(fields: seq<Field>, b: array<byte>, cut: bool) returns (r: Res, ghost l: seq<Instr>)
      requires !defunct ==> Ready() && hp.tbl != b && SafeRun(env.stat, Settled(State()), fields)
      requires forall f :: f in fields ==> WfField(f)
      modifies this, hp, hp.tbl, b
      ensures hp.tbl == old(hp.tbl) && (buf == old(buf) || buf == b)
      ensures old(defunct) || fields == [] || b.Length == 0 ==>
                r == ARG && unchanged(this) && unchanged(hp) && b[..] == old(b[..]) && hp.tbl[..] == old(hp.tbl[..])
      ensures !old(defunct) && fields != [] && b.Length > 0 ==>
                var e := old(State());
                if r == OK || r == BLK then
                  && Ready() && res == r == (if cut then BLK else OK)
                  && Represents(env.stat, Settled(e), fields, l) && State() == Sent(env.stat, e, l)
                  && Payload(hp.evs) == old(Payload(hp.evs)) + BlockWire(env, e, l)
                  && Told(hp.evs) == old(Told(hp.evs)) + AllCalls(BlockItems(env.stat, e, l))
                  && Chunked(hp.evs, |old(hp.evs)|, b.Length)
                else defunct && Refused(env.stat, Settled(e), fields, l, r)
    {
      hide Live; hide Ready; hide Payload; hide AllGood; hide Out; hide WfHdrs; hide WfField; hide Limit;
      hide WfCode; hide Wires; hide Announced; hide Represents; hide AfterAll; hide SafeRun;
      hide Sent; hide Settled; hide BlockWire; hide Chunked; hide Refused; hide WfEnv; hide Told; hide AllCalls;
      hide AnnouncedItems; hide ItemsOf;
      l := [];
      if defunct || fields == [] || b.Length == 0 { return ARG, l; }
      ghost var e, was := State(), Payload(hp.evs);
      ReadyFacts();
      Begin(b);
      r, l := EncodeAll(fields);
      if r != OK {
        RefusedIsError(env.stat, Settled(e), fields, l, r);
        defunct := true;
        return;
      }
      BlockDone(env, e, l, was);
      CallsAppend(old(Told(hp.evs)), AnnouncedItems(e), ItemsOf(env.stat, Settled(e), l));
      Finish(cut);
      r := res;
    }

    /** hpack_resize */
    method Resize(length: nat) returns (r: Res)
      requires !defunct ==> Ready() && hp.tbl != buf
      modifies `defunct, hp`mem, hp`tbl, hp`sz
      ensures r == if old(defunct) then ARG else if res == BLK then BSY else if length >= 0x1_0000 then LEN else OK
      ensures defunct == (old(defunct) || r == LEN)
      ensures r == OK ==> Ready() && State() == Enc(hp.es, Resized(old(hp.sz), length))
      ensures r != OK ==> hp.sz == old(hp.sz)
      ensures hp.tbl == old(hp.tbl) || fresh(hp.tbl)
    {
      if defunct { return ARG; }
      if res != OK { return BSY; }
      hide WfEnv; hide WfHdrs; hide Hpack.Valid;
      var ok := hp.Resize(length);
      if !ok {
        defunct := true;
        return LEN;
      }
      return OK;
    }
  }

  lemma RefusedIsError(stat: seq<Entry>, e: Enc, fs: seq<Field>, l: seq<Instr>, r: Res)
    requires Refused(stat, e, fs, l, r)
    ensures r != OK && r != BLK
  {
    hide Chosen; hide Lookup; hide Represents; hide AfterAll;
  }

  lemma BlockDone(env: Env, e: Enc, l: seq<Instr>, was: seq<byte>)
    requires WfCode(env.code) && WfSize(e.sz)
    ensures AfterAll(env.stat, Settled(e), l) == Sent(env.stat, e, l) && Sent(env.stat, e, l).sz.min < 0
    ensures was + Wires(env.code, Announced(e.sz)) + Wires(env.code, l) == was + BlockWire(env, e, l)
  {
    hide WfCode; hide Wires; hide Announced;
    SentSize(env.stat, e, l);
  }

  lemma NoneYet(c: Code, stat: seq<Entry>, e: Enc, head: seq<byte>)
    requires WfCode(c)
    ensures Represents(stat, e, [], []) && AfterAll(stat, e, []) == e && head + Wires(c, []) == head
  {
  }

  lemma NoType(stat: seq<Entry>, es: seq<Entry>)
    ensures Check(stat, es, None) == ARG
  {
  }

  lemma AnnouncedOnce(c: Code, s: Size, was: seq<byte>)
    requires WfCode(c) && WfSize(s) && 0 <= s.min == s.nxt
    ensures was + Number(Upd(s.min)) == was + Wires(c, Announced(s))
  {
    hide Number;
    WiresOne(c, Upd(s.nxt), []);
    assert Wires(c, Announced(s)) + [] == Wires(c, Announced(s)) && Number(Upd(s.nxt)) + [] == Number(Upd(s.nxt));
  }

  lemma AnnouncedTwice(c: Code, s: Size, was: seq<byte>)
    requires WfCode(c) && WfSize(s) && 0 <= s.min < s.nxt
    ensures was + Number(Upd(s.min)) + Number(Upd(s.nxt)) == was + Wires(c, Announced(s))
  {
    hide Number;
    WiresTwo(c, Upd(s.min), Upd(s.nxt), []);
    assert Wires(c, Announced(s)) + [] == Wires(c, Announced(s)) && Number(Upd(s.nxt)) + [] == Number(Upd(s.nxt));
  }

  /** The events of an insertion. */
  function Indexing(es: seq<Entry>, lim: nat, e: Entry): seq<Event> {
    var n := |es| - |Evict(es, Total(es) + EntrySize(e), lim)|;
    Evicted(n) + if EntrySize(e) <= lim then [IndexEvt(EntrySize(e))] else []
  }

  lemma {:induction false} ToldAppend(evs: seq<Event>, more: seq<Event>)
    requires forall e :: e in more ==> !e.DataEvt?
    ensures Told(evs + more) == Told(evs) + more
  {
    if more == [] {
      assert evs + more == evs;
    } else {
      var m, x := more[..|more| - 1], more[|more| - 1];
      assert evs + more == evs + m + [x] && m + [x] == more;
      ToldAppend(evs, m);
      ToldNext(evs + m, x);
      hide Told;
      assert Told(evs) + m + [x] == Told(evs) + (m + [x]);
    }
  }

  lemma NoData(es: seq<Entry>, lim: nat, e: Entry, n: nat)
    ensures forall x :: x in Indexing(es, lim, e) ==> !x.DataEvt?
    ensures forall x :: x in Evicted(n) ==> !x.DataEvt?
  {
    hide Evict; hide Total;
  }

  lemma IndexTold(t: Tab, e: Entry)
    requires !t.tooBig
    ensures Told(TableSpec.Index(t, e).evs) == Told(t.evs) + Indexing(t.es, Limit(t.sz), e)
  {
    hide Told; hide TableSpec.Index; hide Evict; hide Total; hide EntrySize; hide Limit; hide Evicted;
    IndexEvents(t, e);
    NoData(t.es, Limit(t.sz), e, 0);
    ToldAppend(t.evs, Indexing(t.es, Limit(t.sz), e));
  }

  lemma AdjustTold(t: Tab, len: nat)
    requires !t.tooBig
    ensures var n := |t.es| - |Evict(t.es, len, Limit(t.sz))|; n >= 0 && Told(Adjust(t, len).evs) == Told(t.evs) + Evicted(n)
  {
    hide Told; hide Adjust; hide Evict; hide Limit; hide Evicted; hide Indexing;
    AdjustEvents(t, len);
    var n := |t.es| - |Evict(t.es, len, Limit(t.sz))|;
    NoData([], 0, Entry([], []), n);
    ToldAppend(t.evs, Evicted(n));
  }

  lemma IndexFacts(t: Tab, e: Entry, from: nat, cap: nat)
    requires !t.tooBig && AllGood(t.es) && Good(e)
    ensures var r := TableSpec.Index(t, e);
            && r == t.(es := Insert(t.es, e, Limit(t.sz)), evs := r.evs)
            && Payload(r.evs) == Payload(t.evs) && (Chunked(t.evs, from, cap) ==> Chunked(r.evs, from, cap))
            && Told(r.evs) == Told(t.evs) + Indexing(t.es, Limit(t.sz), e)
  {
    IndexQuiet(t, e, from, cap);
    IndexInv(t, e);
    IndexTold(t, e);
    hide Payload; hide Chunked; hide TableSpec.Index; hide Told; hide Indexing; hide Limit; hide Insert; hide AllGood; hide Good;
  }

  lemma AdjustFacts(t: Tab, len: nat, from: nat, cap: nat)
    requires !t.tooBig
    ensures var r := Adjust(t, len);
            && r == t.(es := Evict(t.es, len, Limit(t.sz)), evs := r.evs)
            && Payload(r.evs) == Payload(t.evs) && (Chunked(t.evs, from, cap) ==> Chunked(r.evs, from, cap))
            && |r.es| <= |t.es| && Told(r.evs) == Told(t.evs) + Evicted(|t.es| - |r.es|)
  {
    AdjustQuiet(t, len, from, cap);
    AdjustEs(t, len);
    AdjustTold(t, len);
    hide Payload; hide Chunked; hide Adjust; hide Told; hide Evicted; hide Evict; hide Limit;
  }

  lemma OnceCalled(e: Enc, told: seq<Event>)
    requires WfSize(e.sz) && 0 <= e.sz.min == e.sz.nxt
    ensures var n := |e.es| - |Evict(e.es, Total(e.es), e.sz.min)|;
            n >= 0 && told + Calls(UpdateItem(n, e.sz.min)) == told + AllCalls(AnnouncedItems(e))
  {
    hide Calls; hide AllCalls; hide Evict; hide Total;
    var x := UpdateItem(|e.es| - |Evict(e.es, Total(e.es), e.sz.min)|, e.sz.min);
    CallsNone(told);
    CallsNext(told, [], x);
    assert [] + [x] == [x];
  }

  lemma TwiceCalled(e: Enc, told: seq<Event>)
    requires WfSize(e.sz) && 0 <= e.sz.min < e.sz.nxt
    ensures var n := |e.es| - |Evict(e.es, Total(e.es), e.sz.min)|;
            n >= 0 && told + Calls(UpdateItem(n, e.sz.min)) + Calls(UpdateItem(0, e.sz.nxt)) == told + AllCalls(AnnouncedItems(e))
  {
    hide Calls; hide AllCalls; hide Evict; hide Total;
    TwoCalls(told, UpdateItem(|e.es| - |Evict(e.es, Total(e.es), e.sz.min)|, e.sz.min), UpdateItem(0, e.sz.nxt));
  }

  lemma TwoCalls(told: seq<Event>, x: Item, y: Item)
    ensures told + Calls(x) + Calls(y) == told + AllCalls([x, y])
  {
    hide Calls; hide AllCalls;
    CallsNone(told);
    CallsNext(told, [], x);
    CallsNext(told, [x], y);
    assert [] + [x] == [x] && [x] + [y] == [x, y];
  }

  lemma FieldCalls(told: seq<Event>, stat: seq<Entry>, es: seq<Entry>, lim: nat, i: Instr)
    requires !i.Upd?
    ensures var x := ItemOf(stat, es, lim, i); told + [FieldEvt(0)] + Entered(x) == told + Calls(x)
  {
    hide Entered; hide Evict; hide Meant;
  }

  lemma UpdateCalls(told: seq<Event>, n: nat, lim: nat)
    ensures told + Evicted(n) + [TableEvt(lim)] == told + Calls(UpdateItem(n, lim))
  {
  }

  /** The item of a field and what its insertion tells. */
  lemma EnteredIs(stat: seq<Entry>, es: seq<Entry>, lim: nat, i: Instr)
    ensures Entered(ItemOf(stat, es, lim, i)) == if i.Lit? && i.kind == Dyn then Indexing(es, lim, Meant(stat, es, i)) else []
  {
    hide Evict; hide Total; hide Meant;
  }

  /** Events that carry no octets. */
  ghost predicate Quiet(t: Tab, r: Tab, from: nat, cap: nat) {
    && Payload(r.evs) == Payload(t.evs) && (Chunked(t.evs, from, cap) ==> Chunked(r.evs, from, cap))
    && r.tooBig == t.tooBig && r.sz == t.sz
  }

  lemma NoteQuiet(t: Tab, e: Event, from: nat, cap: nat)
    requires !e.DataEvt?
    ensures Quiet(t, Note(t, e), from, cap)
  {
    hide Payload;
    PayloadNext(t.evs, e);
  }

  lemma AdjustQuiet(t: Tab, len: nat, from: nat, cap: nat)
    ensures Quiet(t, Adjust(t, len), from, cap)
  {
    hide Evict; hide Payload; hide Chunked; hide Note;
    var r := Evict(t.es, len, Limit(t.sz));
    NoteQuiet(t.(es := r), EvictEvt(|t.es| - |r|), from, cap);
  }

  lemma IndexQuiet(t: Tab, e: Entry, from: nat, cap: nat)
    requires AllGood(t.es) && Good(e)
    ensures var r := TableSpec.Index(t, e); Quiet(t, r, from, cap) && r.es == Insert(t.es, e, Limit(t.sz))
  {
    hide Adjust; hide Payload; hide Total; hide Good; hide AllGood; hide Insert; hide Chunked; hide Note;
    IndexInv(t, e);
    var t1 := Adjust(t, Total(t.es) + EntrySize(e));
    AdjustQuiet(t, Total(t.es) + EntrySize(e), from, cap);
    NoteQuiet(t1.(es := [e] + t1.es), IndexEvt(EntrySize(e)), from, cap);
  }

  /** The insertion of a dynamic field. */
  lemma SafeIs(stat: seq<Entry>, e: Enc, i: Instr, at: Option<nat>)
    requires i.Lit? && i.kind == Dyn && (at.Some? <==> i.nam.ByIndex? && i.nam.idx > STATIC)
    ensures Safe(stat, e, i) <==> Insertable(e.es, Limit(e.sz), Meant(stat, e.es, i), at)
    ensures Next(stat, e, i) == Enc(Insert(e.es, Meant(stat, e.es, i), Limit(e.sz)), e.sz)
  {
    hide Evict; hide Total; hide AliasSafe; hide Meant;
  }

  lemma CheckedIsGood(env: Env, es: seq<Entry>, i: Instr)
    requires WfEnv(env) && AllGood(es) && i.Lit? && Check(env.stat, es, Some(i)) == OK && (i.nam.ByName? ==> i.nam.n.s != [])
    ensures Good(Meant(env.stat, es, i))
    ensures i.nam.ByIndex? ==> 0 < i.nam.idx <= |env.stat| + |es| && Lookup(env.stat, es, i.nam.idx).Some?
  {
    if i.nam.ByIndex? { LookupGood(env, es, i.nam.idx); }
  }

  lemma Joined(a: seq<byte>, b: seq<byte>, c: seq<byte>)
    ensures a + b + c == a + (b + c)
  {
  }

  lemma StrWireIs(c: Code, t: Str, was: seq<byte>)
    requires WfCode(c)
    ensures var len := if t.huf then |HufEnc(c, t.s)| else |t.s|;
            was + IntEnc(7, if t.huf then 0x80 else 0x00, len % 0x1_0000) + Body(c, t) == was + StrWire(c, t)
  {
    hide WfCode; hide HufEnc; hide IntEnc;
    Joined(was, IntEnc(7, if t.huf then 0x80 else 0x00, |Body(c, t)| % 0x1_0000), Body(c, t));
  }

  lemma Popped(written: seq<byte>, pend: bits, b: byte)
    requires |pend| >= 8 && Of(b, 8) == pend[..8]
    ensures OfOctets(written + [b]) + pend[8..] == OfOctets(written) + pend
  {
    OneOctet(written, b);
    hide OfOctets; hide Of;
    assert pend == pend[..8] + pend[8..];
  }

  lemma NothingPending()
    ensures Pending(0, [])
  {
  }

  lemma LastOctet(c: Code, s: seq<byte>, written: seq<byte>, pend: bits, b: byte)
    requires WfCode(c) && OfOctets(written) + pend == EncBits(c, s) && 0 < |pend| < 8 && Of(b, 8) == pend + Ones(8 - |pend|)
    ensures written + [b] == HufEnc(c, s)
  {
    hide WfCode; hide EncBits; hide ToOctets; hide OfOctets; hide Of;
    OctetsOfBits(Padded(c, s));
    OneOctet(written, b);
    assert OfOctets(written) + pend + Ones(8 - |pend|) == OfOctets(written) + (pend + Ones(8 - |pend|));
    OctetsInjective(written + [b], HufEnc(c, s));
  }

  lemma NoPadding(c: Code, s: seq<byte>, written: seq<byte>)
    requires WfCode(c) && OfOctets(written) + [] == EncBits(c, s)
    ensures written == HufEnc(c, s)
  {
    hide WfCode; hide EncBits; hide ToOctets; hide OfOctets;
    OctetsOfBits(Padded(c, s));
    assert EncBits(c, s) + Ones(0) == OfOctets(written);
    OctetsInjective(written, HufEnc(c, s));
  }

  lemma SymBounds(c: Code, b: byte)
    requires WfCode(c)
    ensures var y := SymOf(c, b); 5 <= y.len <= 30 && y.cod < Pow2(y.len)
  {
  }

  lemma GroupsStep(v: nat, sent: seq<byte>)
    requires v >= 0x80
    ensures sent + Groups(v) == sent + [0x80 + v % 0x80] + Groups(v / 0x80)
  {
  }

  lemma GroupsEnd(v: nat)
    requires v < 0x80
    ensures Groups(v) == [v]
  {
  }
}

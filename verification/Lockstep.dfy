/** What a decoder does with the representations that an encoder writes. */
module Lockstep {
  import opened Common
  import opened Bits
  import opened HuffmanCode
  import opened IntSpec
  import opened Validate
  import opened TableSpec
  import opened DecoderSpec
  import opened DecoderScan
  import opened DecoderBlock
  import opened EncoderSpec
  import opened WireScan

  /** The name that a representation stands for. */
  function NameOf(stat: seq<Entry>, es: seq<Entry>, n: Name): seq<byte> {
    match n
    case ByName(t) => t.s
    case ByIndex(i) => match Lookup(stat, es, i) case Some(e) => e.nam case None => []
  }

  /** The field that a representation stands for. */
  function Meant(stat: seq<Entry>, es: seq<Entry>, i: Instr): Entry {
    match i
    case Idx(v) => (match Lookup(stat, es, v) case Some(e) => e case None => Entry([], []))
    case Lit(_, n, v) => Entry(NameOf(stat, es, n), v.s)
    case Upd(_) => Entry([], [])
  }

  /** A representation that hpack_encode_field and its kind let through. */
  ghost predicate WfInstr(env: Env, es: seq<Entry>, i: Instr)
    requires WfEnv(env)
  {
    match i
    case Idx(v) => Lookup(env.stat, es, v).Some?
    case Lit(_, n, v) =>
      && ValueOk(v.s) && WfStr(env.code, v)
      && (match n
          case ByIndex(j) => Lookup(env.stat, es, j).Some?
          case ByName(t) => t.s != [] && Token(t.s) == OK && WfStr(env.code, t))
    case Upd(_) => false
  }

  /** The table and the events once a field was decoded. */
  function Received(stat: seq<Entry>, t: Tab, i: Instr): Tab {
    var e := Meant(stat, t.es, i);
    var t1 := Note(t, FieldEvt(if i.Idx? then i.idx else 0));
    var t2 := if i.Lit? && i.kind == Nvr then Note(t1, NeverEvt) else t1;
    var t3 := Note(Note(t2, NameEvt(e.nam)), ValueEvt(e.val));
    if i.Lit? && i.kind == Dyn then Index(t3, e) else t3
  }

  /** The integer that starts a representation, and the tests of its first octet. */
  lemma NumberWire(env: Env, d: Dec, pfx: prefix, pat: byte, v: u16, rest: seq<byte>) returns (d1: Dec)
    requires !MidField(d) && d.hpi == IDLE && d.t.sz.nxt < 0
    requires (pfx == 7 && pat == 0x80) || (pfx == 6 && pat == 0x40) || (pfx == 4 && (pat == 0x10 || pat == 0x00))
    ensures FeedAll(env, Run(d), IntEnc(pfx, pat, v) + rest) == FeedAll(env, FieldInt(env, d1, v), rest)
    ensures d1 == d.(typ := d1.typ, canUpd := d.canUpd && UpdBit(d1.typ))
    ensures !IsUpdate(d1.typ) && (IsIndexed(d1.typ) <==> pat == 0x80) && (IsDynamic(d1.typ) <==> pat == 0x40)
    ensures IsNever(d1.typ) <==> pat == 0x10
  {
    Pow2Table();
    var w := IntEnc(pfx, pat, v);
    FirstOctet(pfx, pat, v);
    IntWire(d.hpi, pfx, pat, v, rest);
    hide FieldInt; hide IntEnc; hide IntScan; hide FeedAll;
    assert (w + rest)[0] == w[0];
    assert Head(d, w[0]).Run?;
    d1 := Head(d, w[0]).d;
    assert Prefix(d1.typ) == pfx;
    FieldScanFirst(env, d, w + rest);
  }

  lemma StartedTypInv(d: Dec, typ: byte, canUpd: bool)
    requires Inv(d) && !MidField(d)
    ensures Inv(d.(typ := typ, canUpd := canUpd)) && d.hpi == IDLE && d.str == [] && d.nam == [] && d.left == 0 && d.pend == []
    ensures Used(d) == 0
  {
    hide AllGood; hide Total; hide WfSize;
  }

  /** An indexed field. */
  lemma IndexedWire(env: Env, d: Dec, v: u16, rest: seq<byte>) returns (d': Dec)
    requires WfEnv(env) && Inv(d) && !MidField(d) && d.t.sz.nxt < 0 && Lookup(env.stat, d.t.es, v).Some?
    requires var e := Meant(env.stat, d.t.es, Idx(v)); |d.done| + |e.nam| + |e.val| + 2 <= d.cap
    ensures FeedAll(env, Run(d), Wire(env.code, Idx(v)) + rest) == FeedAll(env, Run(d'), rest)
    ensures Inv(d') && !MidField(d') && d'.cap == d.cap && d'.t == Received(env.stat, d.t, Idx(v))
    ensures var e := Meant(env.stat, d.t.es, Idx(v)); d'.done == d.done + Packed(e.nam, e.val)
  {
    StartedTypInv(d, 0, false);
    var d1 := NumberWire(env, d, 7, 0x80, v, rest);
    StartedTypInv(d, d1.typ, d1.canUpd);
    var d2 := Notify(d1, FieldEvt(v));
    NoteInv(d1, FieldEvt(v));
    IndexedIs(env, d2, v);
    var e := Lookup(env.stat, d.t.es, v).value;
    OverIs(d2.(nam := e.nam), e.val);
    d' := Over(d2.(nam := e.nam), e.val);
    hide Inv; hide FeedAll; hide WfEnv; hide Lookup; hide Indexed; hide Over; hide IntEnc;
    assert d.done + Packed(e.nam, e.val) == d.done + (e.nam + [0]) + (e.val + [0]);
  }

  /** Past the name of a literal field, before its value. */
  function Named(q: Dec, nam: seq<byte>, huf: bool): Dec {
    q.(stp := ValLen, nam := nam, huf := huf)
  }

  lemma NameWire(env: Env, q: Dec, n: Name, rest: seq<byte>) returns (huf: bool)
    requires WfEnv(env) && Opening(q) && q.idx == (if n.ByIndex? then n.idx else 0)
    requires match n case ByIndex(j) => Lookup(env.stat, q.t.es, j).Some? case ByName(t) => t.s != [] && Token(t.s) == OK && WfStr(env.code, t)
    requires |q.done| + |NameOf(env.stat, q.t.es, n)| + 1 <= q.cap
    ensures FeedAll(env, Opened(env, q), (if n.ByName? then StrWire(env.code, n.n) else []) + rest)
         == FeedAll(env, Run(Named(q, NameOf(env.stat, q.t.es, n), huf)), rest)
  {
    var nam := NameOf(env.stat, q.t.es, n);
    LookupGood(env, q.t.es, q.idx);
    var d := q.(stp := NamLen);
    hide WfEnv; hide WfCode; hide Token; hide AllGood; hide Total; hide WfSize; hide Lookup; hide FeedAll; hide StrWire;
    huf := q.huf;
    match n
    case ByIndex(j) =>
      assert j != 0 by { NoEntry(env, q.t.es); }
      IndexedNameIs(env, d);
      PutRoom(d, nam + [0]);
      assert [] + rest == rest;
    case ByName(t) =>
      StringWire(env, d, t, rest);
      NameDone(PastString(d, t), t.s);
      huf := t.huf;
  }

  lemma NoEntry(env: Env, es: seq<Entry>)
    ensures Lookup(env.stat, es, 0).None?
  {
  }

  /** The value of a literal field, and its end. */
  lemma ValueWire(env: Env, d: Dec, t: Str, rest: seq<byte>)
    requires WfEnv(env) && d.stp == ValLen && !d.bsy && d.hpi == IDLE && d.left == 0 && d.pend == [] && d.str == []
    requires WfStr(env.code, t) && ValueOk(t.s) && |d.done| + |d.nam| + |t.s| + 2 <= d.cap
    ensures var o := Over(d, t.s).(huf := t.huf);
            FeedAll(env, Run(d), StrWire(env.code, t) + rest) ==
            FeedAll(env, Run(if IsDynamic(d.typ) then o.(t := Index(o.t, Entry(d.nam, t.s))) else o), rest)
  {
    StringWire(env, d, t, rest);
    hide WfEnv; hide WfCode; hide FeedAll; hide StrWire; hide ValueOk; hide Index;
  }

  /** A literal field, up to its integer. */
  lemma LiteralStart(env: Env, d: Dec, i: Instr, rest: seq<byte>) returns (q: Dec)
    requires WfEnv(env) && Inv(d) && !MidField(d) && d.t.sz.nxt < 0 && i.Lit?
    ensures FeedAll(env, Run(d), Number(i) + rest) == FeedAll(env, Opened(env, q), rest)
    ensures Opening(q) && q.idx == (if i.nam.ByIndex? then i.nam.idx else 0) && (IsDynamic(q.typ) <==> i.kind == Dyn)
    ensures q.done == d.done && q.cap == d.cap
    ensures q.t == var t := Note(d.t, FieldEvt(0)); if i.kind == Nvr then Note(t, NeverEvt) else t
  {
    Pow2Table();
    StartedTypInv(d, 0, false);
    var v := if i.nam.ByIndex? then i.nam.idx else 0;
    var d1 := NumberWire(env, d, KindPrefix(i.kind), KindPattern(i.kind), v, rest);
    StartedTypInv(d, d1.typ, d1.canUpd);
    hide WfEnv; hide Inv; hide FeedAll; hide Opened; hide Opening; hide IntEnc; hide FieldInt;
    FieldIntOpens(env, d1, v);
    var q0 := Notify(d1.(idx := v), FieldEvt(0));
    q := if IsNever(d1.typ) then Notify(q0, NeverEvt) else q0;
  }

  /** A literal field. */
  lemma LiteralWire(env: Env, d: Dec, i: Instr, rest: seq<byte>) returns (d': Dec)
    requires WfEnv(env) && Inv(d) && !MidField(d) && d.t.sz.nxt < 0 && i.Lit? && WfInstr(env, d.t.es, i)
    requires var e := Meant(env.stat, d.t.es, i); |d.done| + |e.nam| + |e.val| + 2 <= d.cap
    ensures FeedAll(env, Run(d), Wire(env.code, i) + rest) == FeedAll(env, Run(d'), rest)
    ensures Inv(d') && !MidField(d') && d'.cap == d.cap && d'.t == Received(env.stat, d.t, i)
    ensures var e := Meant(env.stat, d.t.es, i); d'.done == d.done + Packed(e.nam, e.val)
  {
    hide Inv; hide FeedAll; hide Opened; hide Number; hide StrWire; hide Wire; hide WfStr; hide Token; hide ValueOk;
    hide NameOf; hide Lookup; hide Index; hide AllGood; hide Total; hide WfSize; hide Packed; hide WfCode; hide Over; hide Good;
    hide KindPrefix; hide KindPattern; hide IntEnc;
    var e := Meant(env.stat, d.t.es, i);
    TableGood(d);
    GoodMeant(env, d.t.es, i);
    var v := StrWire(env.code, i.val);
    var n := if i.nam.ByName? then StrWire(env.code, i.nam.n) else [];
    WireIs(env.code, i, rest);
    var q := LiteralStart(env, d, i, n + (v + rest));
    assert q.t.es == d.t.es;
    var huf := NameWire(env, q, i.nam, v + rest);
    var dv := Named(q, e.nam, huf);
    ValueWire(env, dv, i.val, rest);
    OverIs(dv, e.val);
    OverInv(dv, e.val);
    var o := Over(dv, e.val).(huf := i.val.huf);
    HufInv(Over(dv, e.val), i.val.huf);
    IndexKeeps(o, e);
    d' := if IsDynamic(dv.typ) then o.(t := Index(o.t, e)) else o;
    PackedIs(d.done, e);
  }

  lemma PackedIs(done: seq<byte>, e: Entry)
    ensures done + Packed(e.nam, e.val) == done + (e.nam + [0]) + (e.val + [0])
  {
  }

  lemma TableGood(d: Dec)
    requires Inv(d)
    ensures AllGood(d.t.es)
  {
  }

  lemma WireIs(c: Code, i: Instr, rest: seq<byte>)
    requires WfCode(c) && i.Lit?
    ensures Wire(c, i) + rest
         == Number(i) + ((if i.nam.ByName? then StrWire(c, i.nam.n) else []) + (StrWire(c, i.val) + rest))
  {
    hide Number; hide StrWire; hide WfCode;
  }

  lemma HufInv(d: Dec, huf: bool)
    requires Inv(d) && !MidField(d)
    ensures Inv(d.(huf := huf))
  {
    hide AllGood; hide Total; hide WfSize;
  }

  lemma GoodMeant(env: Env, es: seq<Entry>, i: Instr)
    requires WfEnv(env) && AllGood(es) && WfInstr(env, es, i)
    ensures Good(Meant(env.stat, es, i))
  {
    match i
    case Idx(v) => LookupGood(env, es, v);
    case Lit(_, n, _) => if n.ByIndex? { LookupGood(env, es, n.idx); }
  }

  /** A field as the encoder writes it is the field that the decoder reports, with the same change of the table. */
  lemma FieldWire(env: Env, d: Dec, i: Instr, rest: seq<byte>) returns (d': Dec)
    requires WfEnv(env) && Inv(d) && !MidField(d) && d.t.sz.nxt < 0 && WfInstr(env, d.t.es, i)
    requires var e := Meant(env.stat, d.t.es, i); |d.done| + |e.nam| + |e.val| + 2 <= d.cap
    ensures FeedAll(env, Run(d), Wire(env.code, i) + rest) == FeedAll(env, Run(d'), rest)
    ensures Inv(d') && !MidField(d') && d'.cap == d.cap && d'.t == Received(env.stat, d.t, i)
    ensures var e := Meant(env.stat, d.t.es, i); d'.done == d.done + Packed(e.nam, e.val)
  {
    hide Inv; hide FeedAll; hide Wire; hide Received; hide Meant; hide WfEnv; hide WfCode; hide Packed; hide Lookup;
    match i
    case Idx(v) => d' := IndexedWire(env, d, v, rest);
    case Lit(_, _, _) => d' := LiteralWire(env, d, i, rest);
  }

  /** An update on the wire. */
  lemma UpdateWire(env: Env, d: Dec, lim: u16, rest: seq<byte>) returns (d1: Dec)
    requires !MidField(d) && d.hpi == IDLE && d.canUpd
    ensures FeedAll(env, Run(d), Number(Upd(lim)) + rest) == FeedAll(env, Update(d1, lim), rest)
    ensures d1 == d.(typ := d1.typ) && IsUpdate(d1.typ)
  {
    Pow2Table();
    var w := IntEnc(5, 0x20, lim);
    FirstOctet(5, 0x20, lim);
    IntWire(d.hpi, 5, 0x20, lim, rest);
    hide Update; hide IntEnc; hide IntScan; hide FeedAll;
    assert (w + rest)[0] == w[0];
    d1 := Head(d, w[0]).d;
    assert Prefix(d1.typ) == 5;
    FieldScanFirst(env, d, w + rest);
  }

  lemma TypInv(d: Dec, typ: byte)
    requires Inv(d) && !MidField(d)
    ensures Inv(d.(typ := typ)) && WfSize(d.t.sz) && d.hpi == IDLE
  {
  }
}

/**
 What the decoder says of updates and of fields, spelled out: what is accepted, what it changes and reports, and which error
 anything else is. Nothing here refers to the machine's own rules, only to the octets it reads.
 */
module DecoderVerdicts {
  import opened Common
  import opened Bits
  import opened HuffmanCode
  import opened IntSpec
  import opened Validate
  import opened TableSpec
  import opened DecoderSpec
  import opened DecoderScan
  import opened DecoderBlock
  import opened DecoderEvents
  import opened EncoderSpec
  import opened WireScan
  import opened Lockstep

  // ---- updates ----

  /** An update to `v` was obeyed: the limits are `sz`, old entries went, and EVICT and TABLE were sent, in this order. */
  ghost predicate Obeyed(d: Dec, v: u16, sz: Size, more: bool, o: Out) {
    && o.Run? && !MidField(o.d) && o.d.t.sz == sz && o.d.canUpd == more
    && o.d.t.es == Evict(d.t.es, Total(d.t.es), v)
    && o.d.t.tooBig == d.t.tooBig && o.d.done == d.done && o.d.cap == d.cap
    && var n := |d.t.es| - |o.d.t.es|;
       && n >= 0
       && (!d.t.tooBig ==> o.d.t.evs == d.t.evs + (if n > 0 then [EvictEvt(n)] else []) + [TableEvt(v)])
  }

  /** Nothing changed but the result. */
  predicate Rejected(d: Dec, r: Res, o: Out) {
    o == Fail(r, d.t.es, d.t.evs)
  }

  lemma ResizeExact(d: Dec, s: Size, v: u16)
    requires !MidField(d)
    ensures var o := Resize(d, s, v);
            if v <= s.max then Obeyed(d, v, s.(lim := v), d.canUpd, o) else Rejected(d, LEN, o)
  {
    var t := d.t.(sz := s.(lim := v));
    AdjustEs(t, Total(t.es));
    if !d.t.tooBig { AdjustEvents(t, Total(t.es)); }
    hide Adjust; hide Evict; hide Total;
  }

  /**
   An update, in any state. Without a resize to come it is obeyed up to the maximum. After resizes down and up the first one
   has to be the least maximum asked for, and is still checked against the old one; the last one may be anything up to the
   last maximum asked for, which becomes the maximum. No update may come late.
   */
  lemma UpdateExact(env: Env, d: Dec, v: u16, rest: seq<byte>) returns (o: Out)
    requires Inv(d) && !MidField(d)
    ensures FeedAll(env, Run(d), Number(Upd(v)) + rest) == FeedAll(env, o, rest)
    ensures var s := d.t.sz;
            if !d.canUpd then Rejected(d, UPD, o)
            else if s.nxt < 0 then
              if v <= s.max then Obeyed(d, v, s.(lim := v), false, o) else Rejected(d, LEN, o)
            else if s.min < s.nxt then
              if v != s.min then Rejected(d, UPD, o)
              else if v <= s.max then Obeyed(d, v, Size(s.max, v, s.nxt, s.nxt), true, o)
              else Rejected(d, LEN, o)
            else if v <= s.nxt then Obeyed(d, v, Size(s.nxt, v, -1, -1), false, o)
            else Rejected(d, UPD, o)
    ensures o.Run? ==> Inv(o.d) && o.d.hpi == IDLE
  {
    TypInv(d, 0);
    if !d.canUpd {
      o := LateUpdate(env, d, v, rest);
      return;
    }
    var s := d.t.sz;
    hide Inv; hide Number; hide FeedAll; hide Obeyed; hide Resize;
    var d1 := UpdateWire(env, d, v, rest);
    TypInv(d, d1.typ);
    UpdateInv(d1, v);
    UpdateIdle(d1, v);
    o := Update(d1, v);
    ResizeExact(d1, s.(min := s.nxt), v);
    ResizeExact(d1.(canUpd := false), s, v);
    if s.nxt >= 0 && v <= s.nxt { ResizeExact(d1.(canUpd := false), Size(s.nxt, v, -1, -1), v); }
    ObeyedSame(d1, d1.(canUpd := false), d, v, o);
  }

  lemma UpdateIdle(d: Dec, v: nat)
    ensures var o := Update(d, v); o.Run? ==> o.d.hpi == d.hpi
  {
    hide Evict; hide Total; hide Limit;
  }

  /** The type of the field and the right to more updates do not matter to what an update does. */
  lemma ObeyedSame(a: Dec, b: Dec, d: Dec, v: u16, o: Out)
    requires a == d.(typ := a.typ) && b == a.(canUpd := b.canUpd)
    ensures forall sz, more :: (Obeyed(a, v, sz, more, o) || Obeyed(b, v, sz, more, o)) ==> Obeyed(d, v, sz, more, o)
  {
    hide Evict; hide Total;
  }

  lemma LateUpdate(env: Env, d: Dec, v: u16, rest: seq<byte>) returns (o: Out)
    requires Inv(d) && !MidField(d) && !d.canUpd
    ensures FeedAll(env, Run(d), Number(Upd(v)) + rest) == FeedAll(env, o, rest) && Rejected(d, UPD, o)
  {
    Pow2Table();
    var w := IntEnc(5, 0x20, v);
    FirstOctet(5, 0x20, v);
    assert (w + rest)[0] == w[0];
    hide IntEnc; hide Inv; hide FeedAll;
    HeadIs(env, d, w + rest);
    FeedNothing(env);
    o := Stop(d, UPD);
  }

  /** An update alone in a block: what the call of hpack_decode gives. */
  lemma UpdateBlock(env: Env, d: Dec, cap: nat, v: u16) returns (o: Out)
    requires Inv(d) && !MidField(d) && d.t.sz.nxt < 0
    ensures Number(Upd(v)) != [] && Called(env, d, false, cap, Number(Upd(v))) == o
    ensures if v <= d.t.sz.max then Obeyed(Start(d, cap), v, d.t.sz.(lim := v), false, o) else Rejected(d, LEN, o)
  {
    Pow2Table();
    FirstOctet(5, 0x20, v);
    StartInv(d, cap);
    hide Inv; hide Number; hide FeedAll; hide Obeyed;
    o := UpdateExact(env, Start(d, cap), v, []);
    FeedNothing(env);
    assert Number(Upd(v)) + [] == Number(Upd(v));
  }

  /**
   After a resize a block that starts with a field is refused, if the field's first octet has bit 0x20 clear: this bit is all
   that the main loop looks at.
   */
  lemma MissingUpdate(env: Env, d: Dec, cap: nat, s: seq<byte>)
    requires Inv(d) && !MidField(d) && d.t.sz.nxt >= 0 && s != [] && s[0] / 0x20 % 2 == 0
    ensures Rejected(d, RSZ, Called(env, d, false, cap, s))
  {
    FeedOne(env, Start(d, cap), s);
    FeedNothing(env);
    hide FeedAll;
  }

  /** An indexed field that there is room for. */
  lemma CopiedRoom(d: Dec, e: Entry)
    requires |d.done| + |e.nam| + |e.val| + 2 <= d.cap
    ensures var o := Copied(d, e);
            && o.Run? && o.d.done == d.done + Packed(e.nam, e.val) && o.d.stp == FldInt && o.d.bsy == d.bsy
            && o.d.t == Note(Note(d.t, NameEvt(e.nam)), ValueEvt(e.val))
  {
    OverIs(d.(nam := e.nam), e.val);
    hide Over;
    assert d.done + Packed(e.nam, e.val) == d.done + (e.nam + [0]) + (e.val + [0]);
  }

  /** With the bit set an indexed field is read instead, and the resize stays unannounced. */
  lemma UnannouncedField(env: Env, d: Dec, cap: nat, b: byte, e: Entry)
    requires Inv(d) && !MidField(d) && d.t.sz.nxt >= 0 && 0x80 <= b < 0xff && b / 0x20 % 2 == 1
    requires Lookup(env.stat, d.t.es, b - 0x80) == Some(e) && |e.nam| + |e.val| + 2 <= cap
    ensures var o := Called(env, d, false, cap, [b]);
            && o.Run? && Verdict(o, false) == (if d.t.tooBig then SKP else OK)
            && o.d.t == Note(Note(Note(d.t, FieldEvt(b - 0x80)), NameEvt(e.nam)), ValueEvt(e.val))
  {
    var d0 := Start(d, cap);
    var d1 := d0.(typ := b);
    StartInv(d, cap);
    HeadKeeps(d0);
    OneOctetInt(d0.hpi, b);
    hide Inv;
    NoteInv(d1, FieldEvt(b - 0x80));
    HeadIs(env, d0, [b]);
    IndexedIs(env, Notify(d1, FieldEvt(b - 0x80)), b - 0x80);
    CopiedRoom(Notify(d1, FieldEvt(b - 0x80)), e);
    hide FeedAll; hide Lookup; hide Indexed; hide Copied; hide IntScan;
    FeedNothing(env);
  }

  lemma OneOctetInt(h: Hpi, b: byte)
    requires 0x80 <= b < 0xff
    ensures IntScan(false, h, 7, [b]) == Scan(Done(b - 0x80), [])
  {
    Pow2Table();
    assert [b][1..] == [];
  }

  // ---- fields ----

  /** Section 2.3.3 of RFC 7541: the static entries come first, and index 0 is none of them. */
  predicate ValidIndex(stat: seq<Entry>, es: seq<Entry>, j: nat) {
    1 <= j <= |stat| + |es|
  }

  lemma LookupExact(stat: seq<Entry>, es: seq<Entry>, j: nat)
    ensures Lookup(stat, es, j) == if ValidIndex(stat, es, j) then Some((stat + es)[j - 1]) else None
  {
  }

  /** OK, or what is wrong with a field: its name first, then its value. */
  function Fault(stat: seq<Entry>, es: seq<Entry>, i: Instr): Res {
    match i
    case Upd(_) => ARG
    case Idx(j) => if ValidIndex(stat, es, j) then OK else IDX
    case Lit(_, n, v) =>
      if n.ByIndex? && !ValidIndex(stat, es, n.idx) then IDX
      else if n.ByName? && n.n.s == [] then LEN
      else if n.ByName? && !ValidName(n.n.s) then (if n.n.s[0] == 0x3a then HDR else CHR)
      else if !ValidValue(v.s) then CHR
      else OK
  }

  /** The strings are short enough to be written, and a name that is written has not the index 0 of none. */
  ghost predicate Writable(c: Code, i: Instr)
    requires WfCode(c)
  {
    i.Idx? || (i.Lit? && WfStr(c, i.val) && if i.nam.ByName? then WfStr(c, i.nam.n) else i.nam.idx != 0)
  }

  lemma FaultIs(env: Env, es: seq<Entry>, i: Instr)
    requires WfEnv(env) && Writable(env.code, i)
    ensures WfInstr(env, es, i) <==> Fault(env.stat, es, i) == OK
  {
    if i.Lit? {
      ValueExact(i.val.s);
      if i.nam.ByName? { TokenExact(i.nam.n.s); }
    }
    hide Token; hide ValueOk; hide ValidName; hide ValidValue; hide WfStr;
  }

  /** The octets of the name of a literal field. */
  function NameOctets(c: Code, n: Name): seq<byte>
    requires WfCode(c)
  {
    if n.ByName? then StrWire(c, n.n) else []
  }

  /** A name that is not acceptable. */
  lemma NameFault(env: Env, q: Dec, n: Name, rest: seq<byte>) returns (o: Out)
    requires WfEnv(env) && Opening(q) && q.idx == (if n.ByIndex? then n.idx else 0)
    requires |q.done| + |NameOf(env.stat, q.t.es, n)| + 1 <= q.cap
    requires match n
             case ByIndex(j) => j != 0 && !ValidIndex(env.stat, q.t.es, j)
             case ByName(t) => WfStr(env.code, t) && (t.s == [] || !ValidName(t.s))
    ensures FeedAll(env, Opened(env, q), NameOctets(env.code, n) + rest) == FeedAll(env, o, rest)
    ensures Rejected(q, if n.ByIndex? then IDX else if n.n.s == [] then LEN else if n.n.s[0] == 0x3a then HDR else CHR, o)
  {
    var d := q.(stp := NamLen);
    assert WfCode(env.code);
    hide WfEnv; hide WfCode; hide Token; hide AllGood; hide Total; hide WfSize; hide FeedAll; hide StrWire; hide ValidName;
    FeedNothing(env);
    match n
    case ByIndex(j) =>
      LookupExact(env.stat, q.t.es, j);
      hide Lookup; hide NameOf;
      IndexedNameIs(env, d);
      o := Stop(d, IDX);
    case ByName(t) =>
      if t.s == [] {
        EmptyName(env, d, t, rest);
        o := Stop(d, LEN);
      } else {
        StringWire(env, d, t, rest);
        NameDone(PastString(d, t), t.s);
        TokenExact(t.s);
        o := Stop(d, Token(t.s));
      }
  }

  lemma EmptyName(env: Env, d: Dec, t: Str, rest: seq<byte>)
    requires WfCode(env.code) && t.s == [] && d.stp == NamLen && !d.bsy && d.hpi == IDLE
    ensures FeedAll(env, Run(d), StrWire(env.code, t) + rest) == Stop(d, LEN)
  {
    BodyEmpty(env.code, t);
    var w := IntEnc(7, if t.huf then 0x80 else 0x00, 0);
    hide WfCode; hide FeedAll; hide IntEnc; hide Body;
    assert StrWire(env.code, t) + rest == w + rest;
    LengthWire(env, d, t.huf, 0, rest);
    BeginIs(d.(huf := t.huf), 0);
    FeedNothing(env);
  }

  /** A value that is not acceptable. */
  lemma ValueFault(env: Env, d: Dec, t: Str, rest: seq<byte>) returns (o: Out)
    requires WfEnv(env) && d.stp == ValLen && !d.bsy && d.hpi == IDLE && d.left == 0 && d.pend == [] && d.str == []
    requires WfStr(env.code, t) && !ValidValue(t.s) && |d.done| + |d.nam| + |t.s| + 2 <= d.cap
    ensures FeedAll(env, Run(d), StrWire(env.code, t) + rest) == FeedAll(env, o, rest) && Rejected(d, CHR, o)
  {
    StringWire(env, d, t, rest);
    ValueExact(t.s);
    hide WfEnv; hide WfCode; hide FeedAll; hide StrWire; hide ValueOk; hide ValidValue;
    FeedNothing(env);
    o := Stop(d, CHR);
  }

  /**
   A field as an encoder may write it, valid or not: it is reported, with its change of the table, or it is refused for its
   first fault, the table being what it was.
   */
  lemma FieldExact(env: Env, d: Dec, i: Instr, rest: seq<byte>) returns (o: Out)
    requires WfEnv(env) && Inv(d) && !MidField(d) && d.t.sz.nxt < 0 && Writable(env.code, i)
    requires var e := Meant(env.stat, d.t.es, i); |d.done| + |e.nam| + |e.val| + 2 <= d.cap
    ensures FeedAll(env, Run(d), Wire(env.code, i) + rest) == FeedAll(env, o, rest)
    ensures var r := Fault(env.stat, d.t.es, i);
            if r == OK then o.Run? && !MidField(o.d) && o.d.t == Received(env.stat, d.t, i)
            else o.Fail? && o.res == r && o.es == d.t.es
  {
    FaultIs(env, d.t.es, i);
    hide Inv; hide FeedAll; hide Wire; hide Received; hide WfEnv; hide WfCode; hide WfInstr; hide Lookup; hide ValidName;
    hide ValidValue;
    if Fault(env.stat, d.t.es, i) == OK {
      var d' := FieldWire(env, d, i, rest);
      o := Run(d');
    } else if i.Idx? {
      o := IndexFault(env, d, i.idx, rest);
    } else {
      o := LiteralFault(env, d, i, rest);
    }
  }

  lemma IndexFault(env: Env, d: Dec, v: u16, rest: seq<byte>) returns (o: Out)
    requires WfEnv(env) && Inv(d) && !MidField(d) && d.t.sz.nxt < 0 && !ValidIndex(env.stat, d.t.es, v)
    ensures FeedAll(env, Run(d), Wire(env.code, Idx(v)) + rest) == FeedAll(env, o, rest) && o.Fail? && o.res == IDX && o.es == d.t.es
  {
    StartedTypInv(d, 0, false);
    var d1 := NumberWire(env, d, 7, 0x80, v, rest);
    StartedTypInv(d, d1.typ, d1.canUpd);
    NoteInv(d1, FieldEvt(v));
    IndexedIs(env, Notify(d1, FieldEvt(v)), v);
    LookupExact(env.stat, d.t.es, v);
    hide Inv; hide FeedAll; hide WfEnv; hide Lookup; hide Indexed; hide Copied; hide IntEnc;
    FeedNothing(env);
    o := Stop(Notify(d1, FieldEvt(v)), IDX);
  }

  lemma LiteralFault(env: Env, d: Dec, i: Instr, rest: seq<byte>) returns (o: Out)
    requires WfEnv(env) && Inv(d) && !MidField(d) && d.t.sz.nxt < 0 && Writable(env.code, i)
    requires i.Lit? && Fault(env.stat, d.t.es, i) != OK
    requires var e := Meant(env.stat, d.t.es, i); |d.done| + |e.nam| + |e.val| + 2 <= d.cap
    ensures FeedAll(env, Run(d), Wire(env.code, i) + rest) == FeedAll(env, o, rest)
    ensures o.Fail? && o.res == Fault(env.stat, d.t.es, i) && o.es == d.t.es
  {
    assert WfCode(env.code);
    hide Inv; hide FeedAll; hide Opened; hide Number; hide StrWire; hide Wire; hide WfStr; hide ValidName; hide ValidValue;
    hide Lookup; hide Opening; hide WfEnv; hide WfCode;
    var v, n := StrWire(env.code, i.val), NameOctets(env.code, i.nam);
    WireIs(env.code, i, rest);
    var q := LiteralStart(env, d, i, n + (v + rest));
    assert q.t.es == d.t.es;
    if (i.nam.ByIndex? && !ValidIndex(env.stat, d.t.es, i.nam.idx)) || (i.nam.ByName? && (i.nam.n.s == [] || !ValidName(i.nam.n.s))) {
      o := NameFault(env, q, i.nam, v + rest);
      FeedNothing(env);
    } else {
      NameFine(env, d.t.es, i.nam);
      var huf := NameWire(env, q, i.nam, v + rest);
      OpeningFacts(q);
      o := ValueFault(env, Named(q, NameOf(env.stat, q.t.es, i.nam), huf), i.val, rest);
    }
  }

  lemma OpeningFacts(q: Dec)
    requires Opening(q)
    ensures !q.bsy && q.hpi == IDLE && q.left == 0 && q.pend == [] && q.str == []
  {
  }

  lemma NameFine(env: Env, es: seq<Entry>, n: Name)
    requires n.ByIndex? ==> ValidIndex(env.stat, es, n.idx)
    requires n.ByName? ==> n.n.s != [] && ValidName(n.n.s)
    ensures match n case ByIndex(j) => Lookup(env.stat, es, j).Some? case ByName(t) => Token(t.s) == OK
  {
    if n.ByName? { TokenExact(n.n.s); }
    hide Token; hide ValidName;
  }
}

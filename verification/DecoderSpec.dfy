/**
 The decoder as a machine over single octets.

 `Feed` consumes one octet of an HPACK block. The C code works on chunks of a block, and suspends in the middle of an
 integer or of a string; it is proved to reach the state of this machine after the octets it has consumed.
 */
module DecoderSpec {
  import opened Common
  import opened Bits
  import opened HuffmanCode
  import opened IntSpec
  import opened Validate
  import opened TableSpec

  /** What never changes: the Huffman code and the static table. */
  datatype Env = Env(code: Code, stat: seq<Entry>)

  ghost predicate WfEnv(env: Env) {
    && WfCode(env.code)
    && |env.stat| == STATIC
    && AllGood(env.stat)
  }

  /** `enum hpack_step_e` */
  datatype Step = FldInt | NamLen | NamStr | ValLen | ValStr

  /**
   The decoder between two octets. `t` is the dynamic table with its limits and the events sent so far. The output buffer has `cap` octets; it
   holds `done`, the fields decoded so far, then `nam` and its NUL once the name of the current field is known, then
   `str`, the string being decoded. `left` and `pend` are the octets left of that string and, for a Huffman string, the
   bits of no whole code yet.
   */
  datatype Dec = Dec(
    t: Tab, canUpd: bool,
    stp: Step, bsy: bool, typ: byte, idx: nat, hpi: Hpi, huf: bool, left: nat, pend: bits,
    done: seq<byte>, cap: nat, nam: seq<byte>, str: seq<byte>)

  /** A decoder that goes on, or one that failed and is defunct. */
  datatype Out = Run(d: Dec) | Fail(res: Res, es: seq<Entry>, evs: seq<Event>)

  function Stop(d: Dec, res: Res): Out {
    Fail(res, d.t.es, d.t.evs)
  }

  // ---- type of a field, from its first octet, in the order of the tests of hpack_decode ----

  predicate IsIndexed(typ: byte) { typ >= 0x80 }
  predicate IsDynamic(typ: byte) { 0x40 <= typ < 0x80 }
  predicate IsUpdate(typ: byte) { 0x20 <= typ < 0x40 }
  predicate IsNever(typ: byte) { 0x10 <= typ < 0x20 }
  predicate UpdBit(typ: byte) { typ / 0x20 % 2 == 1 }

  function Prefix(typ: byte): prefix {
    if IsIndexed(typ) then 7 else if IsDynamic(typ) then 6 else if IsUpdate(typ) then 5 else 4
  }

  // ---- events and the output buffer ----

  function Notify(d: Dec, e: Event): Dec {
    d.(t := Note(d.t, e))
  }

  /** The octets of the current field in the buffer. */
  function Used(d: Dec): nat {
    (if d.stp == ValLen || d.stp == ValStr then |d.nam| + 1 else 0) + |d.str|
  }

  /** hpd_skip: make room for `n` octets after the `used` ones of the current field, giving up on previous fields. */
  function Skip(d: Dec, used: nat, n: nat): Out {
    if |d.done| + used + n <= d.cap then Run(d)
    else if used + n > d.cap then Stop(d, BIG)
    else Run(d.(t := d.t.(tooBig := true), done := []))
  }

  /** HPD_cat, and HPD_putc for a single octet. */
  function Put(d: Dec, s: seq<byte>): Out {
    var o := Skip(d, Used(d), |s|);
    if o.Run? then Run(o.d.(str := d.str + s)) else o
  }

  /** HPD_notify */
  function Report(d: Dec, nam: seq<byte>, val: seq<byte>): Dec {
    Notify(Notify(d, NameEvt(nam)), ValueEvt(val))
  }

  // ---- updates ----

  /** hpack_decode_update, once its integer is known. */
  function Update(d: Dec, sz: nat): Out {
    var s := d.t.sz;
    if s.min >= 0 then
      if s.min < s.nxt then
        if sz != s.min then Stop(d, UPD) else Resize(d, s.(min := s.nxt), sz)
      else if sz > s.nxt then Stop(d, UPD)
      else Resize(d.(canUpd := false), Size(s.nxt, sz, -1, -1), sz)
    else Resize(d.(canUpd := false), s, sz)
  }

  /** The table takes the limits `s`, and `lim` if it is not over the maximum. */
  function Resize(d: Dec, s: Size, lim: nat): Out {
    if lim > s.max then Stop(d, LEN)
    else
      var t := d.t.(sz := s.(lim := lim));
      Run(d.(t := Note(Adjust(t, Total(t.es)), TableEvt(lim))))
  }

  // ---- fields ----

  /** The octets of a complete field in the buffer. */
  function Packed(nam: seq<byte>, val: seq<byte>): seq<byte> {
    nam + [0] + val + [0]
  }

  /** The field is over: `ctx->fld` is cleared. */
  function Clear(d: Dec): Dec {
    d.(stp := FldInt, nam := [], str := [])
  }

  /** HPT_decode: name and value are copied one after the other. */
  function Indexed(env: Env, d: Dec, idx: nat): Out {
    match Lookup(env.stat, d.t.es, idx)
    case None => Stop(d, IDX)
    case Some(e) =>
      match Skip(d, 0, |e.nam| + 1)
      case Fail(_, _, _) => Stop(d, BIG)
      case Run(d1) =>
        match Skip(d1, |e.nam| + 1, |e.val| + 1)
        case Fail(_, _, _) => Stop(d, BIG)
        case Run(d2) => Run(Clear(Report(d2.(done := d2.done + Packed(e.nam, e.val)), e.nam, e.val)))
  }

  /** A name and its NUL are in the buffer: validate it and wait for the value. */
  function NameReady(d: Dec, nam: seq<byte>): Out {
    if Token(nam) == OK then Run(d.(stp := ValLen, nam := nam, str := [])) else Stop(d, Token(nam))
  }

  /** HPT_decode_name */
  function IndexedName(env: Env, d: Dec): Out {
    match Lookup(env.stat, d.t.es, d.idx)
    case None => Stop(d, IDX)
    case Some(e) =>
      match Skip(d, 0, |e.nam| + 1)
      case Fail(_, _, _) => Stop(d, BIG)
      case Run(d1) => NameReady(d1, e.nam)
  }

  /** The integer that starts a field or an update is known. */
  function FieldInt(env: Env, d: Dec, v: nat): Out {
    if IsIndexed(d.typ) then Indexed(env, Notify(d, FieldEvt(v)), v)
    else if IsUpdate(d.typ) then Update(d, v)
    else
      var d1 := Notify(d.(idx := v), FieldEvt(0));
      var d2 := (if IsNever(d.typ) then Notify(d1, NeverEvt) else d1).(stp := NamLen);
      if v == 0 then Run(d2) else IndexedName(env, d2)
  }

  /** The value and its NUL are in the buffer. */
  function ValueReady(d: Dec): Out {
    if !ValueOk(d.str) then Stop(d, CHR)
    else
      var d1 := Report(d.(done := d.done + Packed(d.nam, d.str)), d.nam, d.str);
      Run(Clear(if IsDynamic(d.typ) then d1.(t := Index(d1.t, Entry(d.nam, d.str))) else d1))
  }

  /** The last octet of a string was decoded: terminate it. */
  function StringEnd(d: Dec): Out {
    match Skip(d.(left := 0, pend := []), Used(d), 1)
    case Fail(_, _, _) => Stop(d, BIG)
    case Run(d1) => StringDone(d1)
  }

  /** The string is terminated: go on with the name or with the value it is. */
  function StringDone(d: Dec): Out {
    if d.stp == NamStr then NameReady(d, d.str) else ValueReady(d)
  }

  /** Some octets of a string were read: wait for the others, or check the padding and terminate it. */
  function Finish(d: Dec): Out {
    if d.left > 0 then Run(d)
    else if !Padding(d.pend) then Stop(d, HUF)
    else StringEnd(d)
  }

  /** The length of a string is known. */
  function StringBegin(d: Dec, len: nat): Out {
    var d1 := d.(stp := if d.stp == NamLen then NamStr else ValStr, left := len, pend := []);
    if d1.stp == NamStr && len == 0 then Stop(d, LEN) else Finish(d1)
  }

  /** One octet of a string. */
  function StringOctet(env: Env, d: Dec, b: byte): Out {
    var p := if d.huf then Parse(env.code, d.pend + Of(b, 8)) else Parsed([b], [], false);
    match Put(d, p.out)
    case Fail(_, _, _) => Stop(d, BIG)
    case Run(d1) =>
      if p.eos then Stop(d, HUF) else Finish(d1.(left := if d.left > 0 then d.left - 1 else 0, pend := p.rest))
  }

  /** The tests made at the first octet of a field. */
  function Head(d: Dec, b: byte): Out {
    var d1 := d.(typ := b);
    if !UpdBit(b) && d.t.sz.nxt >= 0 then Stop(d, RSZ)
    else if IsUpdate(b) && !d.canUpd then Stop(d, UPD)
    else Run(if UpdBit(b) then d1 else d1.(canUpd := false))
  }

  /** One octet of an integer. */
  function IntOctet(d: Dec, pfx: prefix, b: byte): IntRes {
    if d.bsy then IntNext(d.hpi, b) else IntFirst(pfx, b)
  }

  /** Between integers the accumulator is of no use. */
  const IDLE := Hpi(0, 0)

  function Feed(env: Env, d: Dec, b: byte): Out {
    match d.stp
    case FldInt =>
      (match if d.bsy then Run(d) else Head(d, b)
       case Fail(r, es, evs) => Fail(r, es, evs)
       case Run(d1) =>
         match IntOctet(d1, Prefix(d1.typ), b)
         case More(h) => Run(d1.(bsy := true, hpi := h))
         case Done(v) => FieldInt(env, d1.(bsy := false, hpi := IDLE), v)
         case Overflow => Stop(d1, INT))
    case NamLen | ValLen =>
      var d1 := if d.bsy then d else d.(huf := b >= 0x80);
      (match IntOctet(d1, 7, b)
       case More(h) => Run(d1.(bsy := true, hpi := h))
       case Done(v) => StringBegin(d1.(bsy := false, hpi := IDLE), v)
       case Overflow => Stop(d1, INT))
    case NamStr | ValStr => StringOctet(env, d, b)
  }

  /** A sequence of octets. */
  function FeedAll(env: Env, o: Out, s: seq<byte>): Out
    decreases |s|
  {
    if s == [] || o.Fail? then o else FeedAll(env, Feed(env, o.d, s[0]), s[1..])
  }

  lemma {:induction false} FeedAppend(env: Env, o: Out, a: seq<byte>, b: seq<byte>)
    ensures FeedAll(env, o, a + b) == FeedAll(env, FeedAll(env, o, a), b)
    decreases |a|
  {
    if a == [] {
      assert a + b == b;
    } else if o.Run? {
      assert (a + b)[1..] == a[1..] + b;
      FeedAppend(env, Feed(env, o.d, a[0]), a[1..], b);
    }
  }

  // ---- what every octet keeps ----

  predicate InName(stp: Step) { stp == NamLen || stp == NamStr }
  predicate InValue(stp: Step) { stp == ValLen || stp == ValStr }
  predicate InString(stp: Step) { stp == NamStr || stp == ValStr }

  /** The parts that do not depend on how far the current field is. */
  predicate Sound(d: Dec) {
    && AllGood(d.t.es) && WfSize(d.t.sz) && Total(d.t.es) <= Limit(d.t.sz)
    && |d.done| + Used(d) <= d.cap
  }

  predicate Inv(d: Dec) {
    && Sound(d)
    && (d.bsy || d.stp != FldInt ==> (if UpdBit(d.typ) then IsUpdate(d.typ) ==> d.canUpd else d.t.sz.nxt < 0 && !d.canUpd))
    && (d.stp != FldInt ==> !IsIndexed(d.typ) && !IsUpdate(d.typ))
    && (InName(d.stp) ==> d.idx == 0)
    && (if InValue(d.stp) then d.nam != [] && Token(d.nam) == OK else d.nam == [])
    && (d.bsy ==> !InString(d.stp))
    && (!d.bsy ==> d.hpi == IDLE)
    && (if InString(d.stp) then d.left > 0 else d.left == 0 && d.str == [])
    && (!InString(d.stp) || !d.huf ==> d.pend == [])
  }

  lemma ResizeInv(d: Dec, s: Size, v: u16)
    requires AllGood(d.t.es) && WfSize(s)
    ensures var o := Resize(d, s, v);
            o.Run? ==>
              && o.d == d.(t := o.d.t) && o.d.t.sz == s.(lim := v)
              && AllGood(o.d.t.es) && WfSize(o.d.t.sz) && Total(o.d.t.es) <= v
  {
    hide Good;
    EvictBounded(d.t.es, v);
  }

  lemma UpdateInv(d: Dec, v: u16)
    requires d.stp == FldInt && !d.bsy && Inv(d) && d.canUpd
    ensures var o := Update(d, v); o.Run? ==> Inv(o.d)
  {
    var s := d.t.sz;
    ResizeInv(d, s.(min := s.nxt), v);
    ResizeInv(d.(canUpd := false), s, v);
    if s.min >= 0 && v <= s.nxt {
      ResizeInv(d.(canUpd := false), Size(s.nxt, v, -1, -1), v);
    }
    hide Resize; hide AllGood; hide Total;
  }

  lemma ValueReadyInv(d: Dec)
    requires Sound(d) && d.nam != [] && Token(d.nam) == OK && d.left == 0 && d.pend == [] && !d.bsy && d.hpi == IDLE
    requires InValue(d.stp) && |d.done| + Used(d) + 1 <= d.cap
    ensures var o := ValueReady(d); o.Run? ==> Inv(o.d)
  {
    hide Token;
    if ValueOk(d.str) {
      hide ValueOk;
      IndexInv(Report(d, d.nam, d.str).t, Entry(d.nam, d.str));
    }
  }

  /** An octet of a Huffman string decodes at least one symbol, or leaves more bits than padding may have. */
  lemma SymbolOrBits(c: Code, pend: bits, b: byte)
    ensures var p := Parse(c, pend + Of(b, 8)); p.out == [] && !p.eos ==> |p.rest| >= 8
  {
  }

  lemma StringEndInv(d: Dec)
    requires Sound(d) && InString(d.stp) && !d.bsy && d.hpi == IDLE
    requires !IsIndexed(d.typ) && !IsUpdate(d.typ) && (!UpdBit(d.typ) ==> d.t.sz.nxt < 0 && !d.canUpd)
    requires if InValue(d.stp) then d.nam != [] && Token(d.nam) == OK else d.str != []
    ensures var o := StringEnd(d); o.Run? ==> Inv(o.d)
  {
    hide Token; hide ValueReady; hide ValueOk; hide Good; hide Total;
    var o := Skip(d.(left := 0, pend := []), Used(d), 1);
    if o.Run? && d.stp == ValStr { ValueReadyInv(o.d); }
  }

  lemma StringOctetInv(env: Env, d: Dec, b: byte)
    requires Inv(d) && InString(d.stp)
    ensures var o := StringOctet(env, d, b); o.Run? ==> Inv(o.d)
  {
    SymbolOrBits(env.code, d.pend, b);
    hide Token; hide Parse; hide StringEnd; hide Good; hide AllGood; hide Total;
    var p := if d.huf then Parse(env.code, d.pend + Of(b, 8)) else Parsed([b], [], false);
    var o := Put(d, p.out);
    if o.Run? && d.left <= 1 && !p.eos && Padding(p.rest) { StringEndInv(o.d.(left := 0, pend := p.rest)); }
  }

  lemma LookupGood(env: Env, es: seq<Entry>, idx: nat)
    requires WfEnv(env) && AllGood(es)
    ensures var r := Lookup(env.stat, es, idx); r.Some? ==> Good(r.value)
  {
    hide Good; hide WfCode;
  }

  lemma IndexedInv(env: Env, d: Dec, v: nat)
    requires Inv(d) && d.stp == FldInt && !d.bsy
    ensures var o := Indexed(env, d, v); o.Run? ==> Inv(o.d)
  {
    hide Lookup; hide Total; hide AllGood; hide WfSize;
  }

  lemma IndexedNameInv(env: Env, d: Dec)
    requires WfEnv(env) && Inv(d.(idx := 0)) && d.stp == NamLen && !d.bsy
    ensures var o := IndexedName(env, d); o.Run? ==> Inv(o.d)
  {
    LookupGood(env, d.t.es, d.idx);
    hide Token; hide ValueOk; hide WfEnv; hide Lookup; hide Total; hide AllGood; hide WfSize;
  }

  lemma FieldIntInv(env: Env, d: Dec, v: u16)
    requires WfEnv(env) && Inv(d) && d.stp == FldInt && !d.bsy
    requires if UpdBit(d.typ) then IsUpdate(d.typ) ==> d.canUpd else d.t.sz.nxt < 0 && !d.canUpd
    ensures var o := FieldInt(env, d, v); o.Run? ==> Inv(o.d)
  {
    hide Indexed; hide Update; hide IndexedName; hide Token; hide WfEnv; hide Total; hide AllGood;
    if IsIndexed(d.typ) {
      IndexedInv(env, Notify(d, FieldEvt(v)), v);
    } else if IsUpdate(d.typ) {
      UpdateInv(d, v);
    } else {
      var d1 := Notify(d.(idx := v), FieldEvt(0));
      var d2 := (if IsNever(d.typ) then Notify(d1, NeverEvt) else d1).(stp := NamLen);
      if v != 0 { IndexedNameInv(env, d2); }
    }
  }

  lemma FeedInv(env: Env, d: Dec, b: byte)
    requires WfEnv(env) && Inv(d)
    ensures var o := Feed(env, d, b); o.Run? ==> Inv(o.d)
  {
    match d.stp
    case FldInt => FirstIntInv(env, d, b);
    case NamLen | ValLen => LengthInv(env, d, b);
    case NamStr | ValStr => StringOctetInv(env, d, b);
  }

  lemma FirstIntInv(env: Env, d: Dec, b: byte)
    requires WfEnv(env) && Inv(d) && d.stp == FldInt
    ensures var o := Feed(env, d, b); o.Run? ==> Inv(o.d)
  {
    hide Token; hide FieldInt; hide Good; hide AllGood; hide Total; hide WfEnv; hide IntNext; hide IntFirst;
    var h := if d.bsy then Run(d) else Head(d, b);
    if h.Run? {
      var r := IntOctet(h.d, Prefix(h.d.typ), b);
      if r.Done? { FieldIntInv(env, h.d.(bsy := false, hpi := IDLE), r.v); }
    }
  }

  lemma LengthInv(env: Env, d: Dec, b: byte)
    requires Inv(d) && (d.stp == NamLen || d.stp == ValLen)
    ensures var o := Feed(env, d, b); o.Run? ==> Inv(o.d)
  {
    hide Token; hide StringEnd; hide Good; hide AllGood; hide Total; hide IntNext; hide IntFirst;
    var d1 := if d.bsy then d else d.(huf := b >= 0x80);
    var r := IntOctet(d1, 7, b);
    if r.Done? && r.v == 0 && d.stp == ValLen {
      StringEndInv(d1.(bsy := false, hpi := IDLE, stp := ValStr, left := 0, pend := []));
    }
  }
}

/** Whole integers and whole strings of octets, read by the machine of `DecoderSpec` octet by octet. */
module DecoderScan {
  import opened Common
  import opened Bits
  import opened HuffmanCode
  import opened IntSpec
  import opened Validate
  import opened TableSpec
  import opened DecoderSpec

  /** The outcome of reading an integer from `s`, and what is left of `s`. */
  datatype Scan = Scan(r: IntRes, rest: seq<byte>)

  function IntScan(bsy: bool, h: Hpi, pfx: prefix, s: seq<byte>): (sc: Scan)
    ensures sc.r.More? ==> sc.rest == []
    ensures sc.r.Done? ==> |sc.rest| < |s|
    decreases |s|
  {
    if s == [] then Scan(More(h), [])
    else match if bsy then IntNext(h, s[0]) else IntFirst(pfx, s[0]) {
      case More(h') => IntScan(true, h', pfx, s[1..])
      case r => Scan(r, s[1..])
    }
  }

  /** The accumulator is of no use before the first octet. */
  lemma IntScanFresh(g: Hpi, h: Hpi, pfx: prefix, s: seq<byte>)
    requires s != []
    ensures IntScan(false, g, pfx, s) == IntScan(false, h, pfx, s)
  {
  }

  /** The integer that starts a field. `d1` is the decoder past the tests made at its first octet. */
  function FieldGo(env: Env, d1: Dec, sc: Scan): Out {
    match sc.r
    case More(h) => Run(d1.(bsy := true, hpi := h))
    case Done(v) => FeedAll(env, FieldInt(env, d1.(bsy := false, hpi := IDLE), v), sc.rest)
    case Overflow => Stop(d1, INT)
  }

  lemma {:induction false} FieldScan(env: Env, d: Dec, s: seq<byte>)
    requires d.stp == FldInt && d.bsy
    ensures FeedAll(env, Run(d), s) == FieldGo(env, d, IntScan(true, d.hpi, Prefix(d.typ), s))
    decreases |s|
  {
    hide FieldInt;
    if s != [] {
      var r := IntNext(d.hpi, s[0]);
      if r.More? {
        var d1 := d.(hpi := r.h);
        FieldScan(env, d1, s[1..]);
        assert forall sc :: FieldGo(env, d1, sc) == FieldGo(env, d, sc);
      }
    } else {
      assert d == d.(bsy := true, hpi := d.hpi);
    }
  }

  lemma FieldScanFirst(env: Env, d: Dec, s: seq<byte>)
    requires d.stp == FldInt && !d.bsy && s != [] && Head(d, s[0]).Run?
    ensures var d1 := Head(d, s[0]).d;
            FeedAll(env, Run(d), s) == FieldGo(env, d1, IntScan(false, d.hpi, Prefix(d1.typ), s))
  {
    hide FieldInt;
    var d1 := Head(d, s[0]).d;
    var r := IntFirst(Prefix(d1.typ), s[0]);
    if r.More? {
      var d2 := d1.(bsy := true, hpi := r.h);
      FieldScan(env, d2, s[1..]);
      assert forall sc :: FieldGo(env, d2, sc) == FieldGo(env, d1, sc);
    }
  }

  /** The length of a string. */
  function LengthGo(env: Env, d1: Dec, sc: Scan): Out {
    match sc.r
    case More(h) => Run(d1.(bsy := true, hpi := h))
    case Done(v) => FeedAll(env, StringBegin(d1.(bsy := false, hpi := IDLE), v), sc.rest)
    case Overflow => Stop(d1, INT)
  }

  lemma {:induction false} LengthScan(env: Env, d: Dec, s: seq<byte>)
    requires (d.stp == NamLen || d.stp == ValLen) && (d.bsy || s != [])
    ensures var d1 := if d.bsy then d else d.(huf := s[0] >= 0x80);
            FeedAll(env, Run(d), s) == LengthGo(env, d1, IntScan(d.bsy, d.hpi, 7, s))
    decreases |s|
  {
    hide StringBegin;
    if s != [] {
      var d1 := if d.bsy then d else d.(huf := s[0] >= 0x80);
      var r := IntOctet(d, 7, s[0]);
      if r.More? {
        var d2 := d1.(bsy := true, hpi := r.h);
        LengthScan(env, d2, s[1..]);
        assert forall sc :: LengthGo(env, d2, sc) == LengthGo(env, d1, sc);
      }
    } else {
      assert d == d.(bsy := true, hpi := d.hpi);
    }
  }

  // ---- strings ----

  /** Writing in two goes is writing at once. */
  lemma PutTwice(d: Dec, a: seq<byte>, b: seq<byte>)
    ensures Put(d, a + b) == match Put(d, a) { case Run(d1) => Put(d1, b) case f => f }
  {
    assert d.str + (a + b) == d.str + a + b;
  }

  /** `n` octets of a raw string were read. */
  function RawGo(d: Dec, s: seq<byte>): Out
    requires |s| <= d.left
  {
    match Put(d, s)
    case Run(d1) => Finish(d1.(left := d.left - |s|, pend := []))
    case Fail(_, _, _) => Stop(d, BIG)
  }

  /** One octet, then the others. */
  lemma RawCons(d: Dec, b: byte, t: seq<byte>)
    requires |t| + 1 <= d.left && t != []
    ensures RawGo(d, [b] + t) ==
            match Put(d, [b]) { case Run(d1) => RawGo(d1.(left := d.left - 1, pend := []), t) case Fail(_, _, _) => Stop(d, BIG) }
  {
    hide Finish;
    PutTwice(d, [b], t);
    var o := Put(d, [b]);
    if o.Run? {
      var x, y := Put(o.d, t), Put(o.d.(left := d.left - 1, pend := []), t);
      assert y == match x { case Run(d2) => Run(d2.(left := d.left - 1, pend := [])) case f => f };
    }
  }

  lemma {:induction false} RawScan(env: Env, d: Dec, s: seq<byte>, rest: seq<byte>)
    requires InString(d.stp) && !d.huf && 0 < |s| <= d.left
    ensures FeedAll(env, Run(d), s + rest) == FeedAll(env, RawGo(d, s), rest)
    decreases |s|
  {
    var b, t := s[0], s[1..];
    assert (s + rest)[1..] == t + rest && (s + rest)[0] == b;
    assert StringOctet(env, d, b) == RawGo(d, [b]);
    var o := Put(d, [b]);
    assert o.Fail? ==> o == Stop(d, BIG);
    var d1 := if o.Run? then o.d.(left := d.left - 1, pend := []) else d;
    assert RawGo(d, [b]) == if o.Run? then Finish(d1) else Stop(d, BIG);
    if t == [] {
      assert s == [b] && t + rest == rest;
    } else {
      assert s == [b] + t;
      RawCons(d, b, t);
      assert o.Run? ==> Finish(d1) == Run(d1) && InString(d1.stp) && !d1.huf;
      hide Put; hide RawGo; hide Finish; hide StringOctet;
      if o.Run? { RawScan(env, d1, t, rest); }
    }
  }

  lemma FinishMore(d: Dec)
    ensures d.left > 0 ==> Finish(d) == Run(d)
    ensures d.left == 0 ==> Finish(d) == if Padding(d.pend) then StringEnd(d) else Stop(d, HUF)
  {
  }

  /** An octet of a Huffman string, when writing its symbols is tried first. */
  lemma OctetIs(env: Env, d: Dec, b: byte)
    requires InString(d.stp) && d.huf && d.left > 0
    ensures var p := Parse(env.code, d.pend + Of(b, 8));
            var o := Put(d.(left := 0, pend := []), p.out);
            Feed(env, d, b) ==
            if o.Fail? then Stop(d, BIG)
            else if p.eos then Stop(d, HUF)
            else Finish(o.d.(left := d.left - 1, pend := p.rest))
  {
    hide Parse; hide Finish; hide Padding;
  }

  /** Terminating a string, when writing its NUL is tried first. */
  lemma EndIs(d: Dec)
    requires InString(d.stp)
    ensures var q := d.(left := 0, pend := []);
            var o := Put(q, [0]);
            StringEnd(d) == if o.Fail? then Stop(d, BIG) else StringDone(o.d.(str := d.str))
  {
    hide StringDone;
  }

  lemma EndSame(d: Dec)
    ensures StringEnd(d) == StringEnd(d.(left := 0, pend := []))
  {
    hide StringDone;
  }

  /** What a chunk gives of a raw string, when writing it is tried first. */
  lemma RawIs(env: Env, d: Dec, s: seq<byte>, rest: seq<byte>)
    requires InString(d.stp) && !d.huf && d.pend == [] && |d.done| + Used(d) <= d.cap
    requires |s| <= d.left && (d.left > 0 ==> s != [])
    ensures var o := Put(d.(left := 0, pend := []), s);
            FeedAll(env, Finish(d), s + rest) ==
            FeedAll(env, if o.Fail? then Stop(d, BIG) else Finish(o.d.(left := d.left - |s|)), rest)
  {
    hide StringEnd; hide Feed;
    FinishMore(d);
    if d.left > 0 {
      RawScan(env, d, s, rest);
    } else {
      assert s + rest == rest && d.str + [] == d.str;
    }
  }

  lemma PutInv(d: Dec, s: seq<byte>, left: nat)
    requires Inv(d) && InString(d.stp) && !d.huf && left > 0
    ensures var o := Put(d.(left := 0, pend := []), s); o.Run? ==> Inv(o.d.(left := left))
  {
    hide AllGood; hide WfSize; hide Total;
  }

  /** The length of a string was just read... */
  lemma IdleInv(d: Dec, huf: bool)
    requires Inv(d) && (d.stp == NamLen || d.stp == ValLen)
    ensures Inv(d.(huf := huf, bsy := false, hpi := IDLE))
  {
    hide AllGood; hide WfSize; hide Total;
  }

  /** ...and more octets are expected. */
  lemma BeginInv(d: Dec, len: nat)
    requires Inv(d) && !d.bsy && (d.stp == NamLen || d.stp == ValLen) && len > 0
    ensures Inv(Begun(d, len))
  {
    hide AllGood; hide WfSize; hide Total;
  }

  /** The string state for a length. */
  function Begun(d: Dec, len: nat): Dec {
    d.(stp := if d.stp == NamLen then NamStr else ValStr, left := len, pend := [])
  }

  lemma BeginIs(d: Dec, len: nat)
    requires d.stp == NamLen || d.stp == ValLen
    ensures StringBegin(d, len) ==
            if d.stp == NamLen && len == 0 then Stop(d, LEN)
            else if len > 0 then Run(Begun(d, len))
            else StringEnd(Begun(d, len))
    ensures len > 0 ==> Finish(Begun(d, len)) == Run(Begun(d, len))
    ensures len == 0 ==> Finish(Begun(d, len)) == StringEnd(Begun(d, len))
  {
    hide StringEnd;
  }

  lemma BusyInv(d: Dec, huf: bool, h: Hpi)
    requires Inv(d) && !InString(d.stp)
    requires d.stp == FldInt ==> if UpdBit(d.typ) then IsUpdate(d.typ) ==> d.canUpd else d.t.sz.nxt < 0 && !d.canUpd
    ensures Inv(d.(huf := huf, bsy := true, hpi := h))
  {
    hide AllGood; hide WfSize; hide Total;
  }

  /** The decoder past some octets of a length. */
  function LengthAt(d: Dec, huf: bool, r: IntRes): Dec {
    match r
    case More(h) => d.(huf := huf, bsy := true, hpi := h)
    case _ => d.(huf := huf, bsy := false, hpi := IDLE)
  }

  /** What reading a length gives. */
  lemma LengthReads(env: Env, d: Dec, s: seq<byte>, hpi: Hpi)
    requires Inv(d) && (d.stp == NamLen || d.stp == ValLen) && s != [] && (d.bsy ==> d.hpi == hpi)
    ensures var huf := if d.bsy then d.huf else s[0] >= 0x80;
            var sc := IntScan(d.bsy, hpi, 7, s);
            var e := LengthAt(d, huf, sc.r);
            && Inv(e)
            && FeedAll(env, Run(d), s) ==
               match sc.r case More(_) => Run(e) case Done(v) => FeedAll(env, StringBegin(e, v), sc.rest) case Overflow => Stop(d, INT)
  {
    LengthScan(env, d, s);
    if !d.bsy { IntScanFresh(hpi, d.hpi, 7, s); }
    var huf := if d.bsy then d.huf else s[0] >= 0x80;
    IdleInv(d, huf);
    var r := IntScan(d.bsy, hpi, 7, s).r;
    if r.More? { BusyInv(d, huf, r.h); }
    hide Inv; hide FeedAll; hide StringBegin; hide IntScan;
  }

  lemma FeedOne(env: Env, d: Dec, s: seq<byte>)
    requires s != []
    ensures FeedAll(env, Run(d), s) == FeedAll(env, Feed(env, d, s[0]), s[1..])
  {
    hide Feed;
  }

  lemma FeedNothing(env: Env)
    ensures forall o :: FeedAll(env, o, []) == o
    ensures forall s, r, es, evs :: FeedAll(env, Fail(r, es, evs), s) == Fail(r, es, evs)
  {
  }

  // ---- names and values ----

  lemma NameDone(d: Dec, s: seq<byte>)
    ensures NameReady(d.(str := s), s) == NameReady(d, s)
    ensures d.stp == NamStr ==> StringDone(d.(str := s)) == NameReady(d, s)
  {
    hide Token;
  }

  /** HPT_decode_name, when copying the name is tried first. */
  lemma IndexedNameIs(env: Env, d: Dec)
    requires d.stp == NamLen && d.str == []
    ensures var e := Lookup(env.stat, d.t.es, d.idx);
            IndexedName(env, d) ==
            if e.None? then Stop(d, IDX)
            else var o := Put(d, e.value.nam + [0]);
                 if o.Fail? then Stop(d, BIG) else NameReady(o.d, e.value.nam)
  {
    hide Lookup; hide Token;
  }

  /** What the field under way keeps, apart from its strings. */
  predicate Steady(d: Dec) {
    && !d.bsy && d.hpi == IDLE && !IsIndexed(d.typ) && !IsUpdate(d.typ)
    && (!UpdBit(d.typ) ==> d.t.sz.nxt < 0 && !d.canUpd)
  }

  lemma NamedInv(d: Dec, s: seq<byte>)
    requires Steady(d) && AllGood(d.t.es) && WfSize(d.t.sz) && Total(d.t.es) <= Limit(d.t.sz)
    requires s != [] && Token(s) == OK && |d.done| + |s| + 1 <= d.cap && d.left == 0 && d.pend == []
    ensures Inv(d.(stp := ValLen, nam := s, str := []))
  {
    hide Token; hide AllGood; hide Total; hide WfSize;
  }

  /** What an invariant gives for the field under way. */
  lemma InvSteady(d: Dec)
    requires Inv(d) && d.stp != FldInt
    ensures Steady(d.(bsy := false, hpi := IDLE))
    ensures InValue(d.stp) ==> d.nam != [] && Token(d.nam) == OK
    ensures InName(d.stp) ==> d.idx == 0 && d.nam == []
  {
    hide Token; hide AllGood; hide Total; hide WfSize;
  }

  /** The decoder once the current field is over, with what it reported. */
  function Over(d: Dec, val: seq<byte>): Dec {
    Clear(Report(d.(done := d.done + Packed(d.nam, val)), d.nam, val))
  }

  lemma ValueDone(d: Dec, s: seq<byte>)
    requires d.stp == ValStr
    ensures StringDone(d.(str := s)) ==
            if !ValueOk(s) then Stop(d, CHR)
            else Run(if IsDynamic(d.typ) then Over(d, s).(t := Index(Over(d, s).t, Entry(d.nam, s))) else Over(d, s))
  {
    hide ValueOk; hide Index;
  }

  lemma OverInv(d: Dec, s: seq<byte>)
    requires Steady(d) && AllGood(d.t.es) && WfSize(d.t.sz) && Total(d.t.es) <= Limit(d.t.sz)
    requires d.left == 0 && d.pend == [] && |d.done| + |d.nam| + |s| + 2 <= d.cap
    ensures Inv(Over(d, s))
  {
    hide AllGood; hide Total; hide WfSize;
  }

  lemma OverStr(d: Dec, str: seq<byte>, s: seq<byte>)
    ensures Over(d.(str := str), s) == Over(d, s)
  {
  }

  lemma OverIs(d: Dec, s: seq<byte>)
    ensures Over(d, s) == d.(stp := FldInt, done := d.done + (d.nam + [0]) + (s + [0]), nam := [], str := [],
                             t := Note(Note(d.t, NameEvt(d.nam)), ValueEvt(s)))
  {
    assert d.done + Packed(d.nam, s) == d.done + (d.nam + [0]) + (s + [0]);
  }

  /** A field whose integer is known, before anything else is read of it. */
  predicate Opening(d: Dec) {
    && Steady(d) && d.stp == FldInt && d.left == 0 && d.pend == [] && d.nam == [] && d.str == []
    && AllGood(d.t.es) && WfSize(d.t.sz) && Total(d.t.es) <= Limit(d.t.sz) && |d.done| <= d.cap
  }

  lemma OpeningInv(d: Dec)
    requires Opening(d) && d.idx == 0
    ensures Inv(d.(stp := NamLen))
  {
    hide AllGood; hide Total; hide WfSize;
  }

  /** How a field goes on once its integer is known. */
  function Opened(env: Env, d: Dec): Out {
    var d1 := d.(stp := NamLen);
    if d.idx == 0 then Run(d1) else IndexedName(env, d1)
  }

  lemma StartedInv(d: Dec)
    requires Inv(d) && d.stp == FldInt
    ensures Inv(d.(bsy := false, hpi := IDLE))
  {
    hide AllGood; hide Total; hide WfSize;
  }

  /** hpd_skip when it succeeds. */
  function Room(d: Dec, used: nat, n: nat): Dec {
    if |d.done| + used + n <= d.cap then d else d.(t := d.t.(tooBig := true), done := [])
  }

  lemma RoomIs(d: Dec, used: nat, n: nat, r: Dec)
    requires r == d.(done := r.done, t := d.t.(tooBig := r.t.tooBig))
    requires if |d.done| + used + n <= d.cap then r.done == d.done && r.t.tooBig == d.t.tooBig else r.done == [] && r.t.tooBig
    ensures r == Room(d, used, n)
  {
  }

  /** The name of an entry and its NUL are copied, then its value. */
  function Copied(d: Dec, e: Entry): Out {
    var n, v := |e.nam| + 1, |e.val| + 1;
    if n + v > d.cap then Stop(d, BIG) else Run(Over(Room(Room(d, 0, n).(nam := e.nam), n, v), e.val))
  }

  lemma IndexedIs(env: Env, d: Dec, idx: nat)
    requires Inv(d) && d.stp == FldInt && !d.bsy
    ensures var e := Lookup(env.stat, d.t.es, idx);
            Indexed(env, d, idx) == if e.None? then Stop(d, IDX) else Copied(d, e.value)
    ensures idx == 0 ==> Indexed(env, d, idx) == Stop(d, IDX)
    ensures var o := Indexed(env, d, idx); o.Run? ==> Inv(o.d)
  {
    assert idx == 0 ==> Lookup(env.stat, d.t.es, idx) == None;
    IndexedInv(env, d, idx);
    hide Lookup; hide AllGood; hide Total; hide WfSize; hide Packed; hide Inv;
  }

  lemma NoteInv(d: Dec, e: Event)
    requires Inv(d)
    ensures Inv(Notify(d, e))
  {
    hide AllGood; hide Total; hide WfSize;
  }

  lemma NothingWritten(d: Dec)
    requires Inv(d) && !InString(d.stp)
    ensures d.str == []
  {
  }

  lemma FieldIntOpens(env: Env, d: Dec, v: nat)
    requires Inv(d) && d.stp == FldInt && !d.bsy && !IsIndexed(d.typ) && !IsUpdate(d.typ)
    requires !UpdBit(d.typ) ==> d.t.sz.nxt < 0 && !d.canUpd
    ensures var q0 := Notify(d.(idx := v), FieldEvt(0));
            var q := if IsNever(d.typ) then Notify(q0, NeverEvt) else q0;
            FieldInt(env, d, v) == Opened(env, q) && Opening(q)
  {
    hide AllGood; hide Total; hide WfSize; hide IndexedName;
  }

  lemma IndexKeeps(d: Dec, e: Entry)
    requires Inv(d) && Good(e)
    ensures Inv(d.(t := Index(d.t, e)))
  {
    IndexInv(d.t, e);
    hide AllGood; hide Total; hide WfSize; hide Index; hide Good;
  }

  /** The first octet of a field, and the tests of the main loop. */
  lemma HeadIs(env: Env, d: Dec, s: seq<byte>)
    requires s != []
    ensures d.stp == FldInt && d.bsy ==> FeedAll(env, Run(d), s) == FieldGo(env, d, IntScan(true, d.hpi, Prefix(d.typ), s))
    ensures d.stp == FldInt && !d.bsy ==>
      var d1 := if UpdBit(s[0]) then d.(typ := s[0]) else d.(typ := s[0], canUpd := false);
      FeedAll(env, Run(d), s) ==
      if !UpdBit(s[0]) && d.t.sz.nxt >= 0 then Stop(d, RSZ)
      else if IsUpdate(s[0]) && !d.canUpd then Stop(d, UPD)
      else FieldGo(env, d1, IntScan(false, d.hpi, Prefix(s[0]), s))
  {
    if d.stp == FldInt {
      if d.bsy {
        FieldScan(env, d, s);
      } else if Head(d, s[0]).Run? {
        FieldScanFirst(env, d, s);
      } else {
        FeedNothing(env);
      }
    }
  }

  lemma HeadKeeps(d: Dec)
    requires Inv(d)
    ensures d.bsy || d.stp != FldInt ==> (if UpdBit(d.typ) then IsUpdate(d.typ) ==> d.canUpd else d.t.sz.nxt < 0 && !d.canUpd)
    ensures d.stp != FldInt ==> !IsIndexed(d.typ) && !IsUpdate(d.typ)
    ensures d.stp == FldInt && !d.bsy ==> forall typ: byte, canUpd :: Inv(d.(typ := typ, canUpd := canUpd))
  {
    hide AllGood; hide Total; hide WfSize;
  }

  /** The limits that an update leads to are well-formed. */
  lemma UpdateSize(d: Dec, v: u16)
    requires Inv(d)
    ensures var s := d.t.sz;
            var max := if s.nxt >= 0 then s.nxt else 0;
            var s1 := if s.min < 0 then s else if s.min < s.nxt then s.(min := s.nxt) else Size(max, v, -1, -1);
            (0 <= s.min == s.nxt ==> v <= s.nxt) && v <= s1.max ==> WfSize(s1.(lim := v))
    ensures d.t.sz.min >= 0 ==> d.t.sz.nxt >= d.t.sz.min
  {
  }

  /** A chunk that does not hold the whole of a raw string. */
  lemma RawPart(env: Env, d: Dec, s: seq<byte>)
    requires InString(d.stp) && !d.huf && Inv(d) && s != [] && |s| < d.left
    ensures var o := Put(d.(left := 0), s);
            if o.Fail? then FeedAll(env, Finish(d), s) == Stop(d, BIG)
            else FeedAll(env, Finish(d), s) == Run(o.d.(left := d.left - |s|)) && Inv(o.d.(left := d.left - |s|))
  {
    FeedNothing(env);
    RawFacts(d);
    assert d.(left := 0) == d.(left := 0, pend := []);
    assert s + [] == s;
    PutInv(d, s, d.left - |s|);
    hide Put; hide Finish; hide FeedAll; hide Inv;
    RawIs(env, d, s, []);
    var o := Put(d.(left := 0), s);
    if o.Run? { FinishMore(o.d.(left := d.left - |s|)); }
  }

  lemma RawFacts(d: Dec)
    requires Inv(d)
    ensures |d.done| + Used(d) <= d.cap && (!d.huf ==> d.pend == [])
  {
  }

  /** A chunk that holds the whole. */
  lemma RawWhole(env: Env, d: Dec, s: seq<byte>, rest: seq<byte>)
    requires InString(d.stp) && !d.huf && d.pend == [] && |d.done| + Used(d) <= d.cap && |s| == d.left
    ensures var o := Put(d.(left := 0), s);
            FeedAll(env, Finish(d), s + rest) == if o.Fail? then Stop(d, BIG) else FeedAll(env, StringEnd(o.d), rest)
  {
    FeedNothing(env);
    assert d.(left := 0) == d.(left := 0, pend := []);
    hide Put; hide Finish; hide FeedAll; hide StringEnd;
    RawIs(env, d, s, rest);
    PutFrame(d.(left := 0), s);
    var o := Put(d.(left := 0), s);
    if o.Run? { FinishMore(o.d); }
  }

  lemma PutFrame(d: Dec, s: seq<byte>)
    ensures var o := Put(d, s); o.Run? ==> o.d.left == d.left && o.d.pend == d.pend
  {
  }

  /** An octet of a Huffman string and what comes after it. */
  lemma HufOctetIs(env: Env, d: Dec, s: seq<byte>)
    requires WfEnv(env) && Inv(d) && InString(d.stp) && d.huf && d.left > 0 && s != []
    ensures var p := Parse(env.code, d.pend + Of(s[0], 8));
            var o := Put(d.(left := 0, pend := []), p.out);
            if o.Fail? then FeedAll(env, Run(d), s) == Stop(d, BIG)
            else if p.eos then FeedAll(env, Run(d), s) == Stop(d, HUF)
            else
              var e := o.d.(left := d.left - 1, pend := p.rest);
              && FeedAll(env, Run(d), s) == FeedAll(env, Finish(e), s[1..])
              && (d.left > 1 ==> Inv(e)) && (e.str != [] || |p.rest| >= 8)
  {
    FeedNothing(env);
    SymbolOrBits(env.code, d.pend, s[0]);
    FeedInv(env, d, s[0]);
    hide Parse; hide Of; hide Put; hide Finish; hide Inv; hide Feed; hide FeedAll; hide WfEnv;
    FeedOne(env, d, s);
    OctetIs(env, d, s[0]);
    var p := Parse(env.code, d.pend + Of(s[0], 8));
    var o := Put(d.(left := 0, pend := []), p.out);
    PutAppends(d.(left := 0, pend := []), p.out);
    if o.Run? && !p.eos { FinishMore(o.d.(left := d.left - 1, pend := p.rest)); }
  }

  lemma PutAppends(d: Dec, s: seq<byte>)
    ensures var o := Put(d, s); o.Run? ==> o.d.str == d.str + s
  {
  }
}

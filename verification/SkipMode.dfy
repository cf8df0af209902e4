/**
 Decoding with a small buffer, against decoding with a buffer that never has to discard a field. Both run in step until
 some field alone does not fit, and the table and its limits are the same all along.
 */
module SkipMode {
  import opened Common
  import opened Bits
  import opened HuffmanCode
  import opened IntSpec
  import opened Validate
  import opened TableSpec
  import opened DecoderSpec
  import opened DecoderScan
  import opened DecoderBlock
  import opened DecoderEvents

  /**
   `d` has a buffer of `c` octets and `e` a larger one, where nothing was discarded; `used` octets belong to the current
   field. `d` is in skip mode as soon as the fields of the block do not fit all together.
   */
  ghost predicate Like(d: Dec, e: Dec, c: nat, used: nat) {
    && !e.t.tooBig && c <= e.cap
    && d == e.(cap := c, done := d.done, t := e.t.(evs := d.t.evs, tooBig := d.t.tooBig))
    && |d.done| + used <= c
    && (d.t.tooBig <==> |e.done| + used > c)
    && (if d.t.tooBig then d.t.evs <= e.t.evs else d.t.evs == e.t.evs && d.done == e.done)
  }

  /** How the small buffer follows: it fails exactly when the field that ends here, or the one under way, does not fit. */
  ghost predicate Follows(od: Out, oe: Out, was: nat, c: nat) {
    oe.Run? && !oe.d.t.tooBig ==>
      var n, u := |oe.d.done|, Used(oe.d);
      was <= n && if n - was <= c && u <= c then od.Run? && Like(od.d, oe.d, c, u) else od.Fail? && od.res == BIG
  }

  lemma SkipLike(d: Dec, e: Dec, c: nat, used: nat, n: nat)
    requires Like(d, e, c, used)
    ensures var oe, od := Skip(e, used, n), Skip(d, used, n);
            oe.Run? && !oe.d.t.tooBig ==>
              && oe.d == e
              && if used + n <= c then od.Run? && Like(od.d, e, c, used + n) else od.Fail? && od.res == BIG
  {
  }

  lemma PutLike(d: Dec, e: Dec, c: nat, s: seq<byte>)
    requires Like(d, e, c, Used(e))
    ensures Follows(Put(d, s), Put(e, s), |e.done|, c)
  {
    SkipLike(d, e, c, Used(e), |s|);
  }

  lemma NoteLike(d: Dec, e: Dec, c: nat, used: nat, v: Event)
    requires Like(d, e, c, used)
    ensures Like(Notify(d, v), Notify(e, v), c, used)
  {
  }

  lemma AdjustLike(d: Dec, e: Dec, c: nat, used: nat, len: nat)
    requires Like(d, e, c, used)
    ensures Like(d.(t := Adjust(d.t, len)), e.(t := Adjust(e.t, len)), c, used)
  {
    hide Evict;
  }

  lemma IndexLike(d: Dec, e: Dec, c: nat, used: nat, x: Entry)
    requires Like(d, e, c, used)
    ensures Like(d.(t := Index(d.t, x)), e.(t := Index(e.t, x)), c, used)
  {
    AdjustLike(d, e, c, used, Total(e.t.es) + EntrySize(x));
    hide Evict; hide Total; hide Adjust;
  }

  lemma UpdateLike(d: Dec, e: Dec, c: nat, v: nat)
    requires Like(d, e, c, Used(e)) && e.stp == FldInt && e.str == [] && WfSize(e.t.sz)
    ensures Follows(Update(d, v), Update(e, v), |e.done|, c)
  {
    var s := e.t.sz;
    var s1 := (if s.min >= 0 then if s.min < s.nxt then s.(min := s.nxt) else Size(s.nxt, v, -1, -1) else s).(lim := v);
    var canUpd := e.canUpd && 0 <= s.min < s.nxt;
    var d1, e1 := d.(canUpd := canUpd, t := d.t.(sz := s1)), e.(canUpd := canUpd, t := e.t.(sz := s1));
    AdjustLike(d1, e1, c, 0, Total(e.t.es));
    hide Total; hide Evict; hide Adjust;
    NoteLike(d1.(t := Adjust(d1.t, Total(e.t.es))), e1.(t := Adjust(e1.t, Total(e.t.es))), c, 0, TableEvt(v));
  }

  /** A field ends: its strings join the ones before it. */
  lemma OverLike(d: Dec, e: Dec, c: nat, nam: seq<byte>, val: seq<byte>)
    requires Like(d, e, c, |nam| + |val| + 2)
    ensures var d1, e1 := Over(d.(nam := nam), val), Over(e.(nam := nam), val);
            Like(d1, e1, c, 0) && |e1.done| == |e.done| + |nam| + |val| + 2 && e1.stp == FldInt && e1.str == []
  {
    OverIs(d.(nam := nam), val);
    OverIs(e.(nam := nam), val);
    hide Over;
  }

  lemma OverDone(e: Dec, nam: seq<byte>, val: seq<byte>)
    ensures var e1 := Over(e.(nam := nam), val);
            |e1.done| == |e.done| + |nam| + |val| + 2 && Used(e1) == 0 && e1.t.tooBig == e.t.tooBig
  {
    OverIs(e.(nam := nam), val);
  }

  lemma IndexedRoomy(env: Env, e: Dec, v: nat)
    ensures var r, o := Lookup(env.stat, e.t.es, v), Indexed(env, e, v);
            o.Run? && !o.d.t.tooBig ==>
              var n, w := |r.value.nam| + 1, |r.value.val| + 1;
              Skip(e, 0, n) == Run(e) && Skip(e, n, w) == Run(e)
    ensures var o := Indexed(env, e, v); o.Fail? ==> o.res == IDX || o.res == BIG
    ensures var o := Indexed(env, e, v); o.Fail? && o.res == IDX ==> Lookup(env.stat, e.t.es, v).None?
  {
    hide Lookup; hide Packed;
  }

  lemma IndexedLike(env: Env, d: Dec, e: Dec, c: nat, v: nat)
    requires Like(d, e, c, 0) && e.stp == FldInt && e.str == [] && e.nam == []
    ensures Follows(Indexed(env, d, v), Indexed(env, e, v), |e.done|, c)
  {
    hide Note; hide Used;
    hide Lookup; hide Skip; hide Like; hide Packed;
    LikeTable(d, e, c, 0);
    var r := Lookup(env.stat, e.t.es, v);
    IndexedRoomy(env, e, v);
    var oe := Indexed(env, e, v);
    if oe.Run? && !oe.d.t.tooBig {
      var n, w := |r.value.nam| + 1, |r.value.val| + 1;
      OverDone(e, r.value.nam, r.value.val);
      SkipLike(d, e, c, 0, n);
      if n <= c {
        var d1 := Skip(d, 0, n).d;
        SkipLike(d1, e, c, n, w);
        if n + w <= c {
          OverLike(Skip(d1, n, w).d, e, c, r.value.nam, r.value.val);
        }
      }
    }
  }

  lemma LikeTable(d: Dec, e: Dec, c: nat, used: nat)
    requires Like(d, e, c, used)
    ensures d.t.es == e.t.es && d.t.sz == e.t.sz
  {
  }

  lemma NameReadyLike(d: Dec, e: Dec, c: nat, nam: seq<byte>, was: nat)
    requires Like(d, e, c, |nam| + 1) && was == |e.done|
    ensures Follows(NameReady(d, nam), NameReady(e, nam), was, c)
  {
    hide Token;
  }

  lemma IndexedNameLike(env: Env, d: Dec, e: Dec, c: nat)
    requires Like(d, e, c, 0) && e.stp == NamLen && e.str == [] && e.nam == []
    ensures Follows(IndexedName(env, d), IndexedName(env, e), |e.done|, c)
  {
    LikeTable(d, e, c, 0);
    hide Lookup; hide Like; hide NameReady;
    var r := Lookup(env.stat, e.t.es, e.idx);
    if r.Some? {
      var n := |r.value.nam| + 1;
      NameRoomy(env, e);
      SkipLike(d, e, c, 0, n);
      var oe := IndexedName(env, e);
      if Skip(e, 0, n) == Run(e) && n <= c {
        NameReadyLike(Skip(d, 0, n).d, e, c, r.value.nam, |e.done|);
      }
    }
  }

  lemma NameRoomy(env: Env, e: Dec)
    requires Lookup(env.stat, e.t.es, e.idx).Some?
    ensures var r, o := Lookup(env.stat, e.t.es, e.idx), IndexedName(env, e);
            && (o.Run? && !o.d.t.tooBig ==> Skip(e, 0, |r.value.nam| + 1) == Run(e) && Used(o.d) == |r.value.nam| + 1 && o.d.done == e.done)
            && (o.Fail? && o.res != BIG ==> Token(r.value.nam) != OK)
  {
    hide Lookup; hide Token;
  }

  /** A value and its NUL are in both buffers. */
  lemma ValueReadyLike(d: Dec, e: Dec, c: nat, was: nat)
    requires Like(d, e, c, Used(e) + 1) && InValue(e.stp) && was == |e.done|
    ensures Follows(ValueReady(d), ValueReady(e), was, c)
  {
    hide ValueOk;
    if ValueOk(e.str) {
      OverLike(d, e, c, e.nam, e.str);
      var d1, e1 := Over(d, e.str), Over(e, e.str);
      assert d.(nam := e.nam) == d && e.(nam := e.nam) == e;
      IndexLike(d1, e1, c, 0, Entry(e.nam, e.str));
      hide Index; hide Packed;
    }
  }

  lemma StringEndLike(d: Dec, e: Dec, c: nat)
    requires Like(d, e, c, Used(e)) && InString(e.stp) && (e.stp == NamStr ==> e.nam == [])
    ensures Follows(StringEnd(d), StringEnd(e), |e.done|, c)
  {
    var d1, e1 := d.(left := 0, pend := []), e.(left := 0, pend := []);
    SkipLike(d1, e1, c, Used(e), 1);
    var od, oe := Skip(d1, Used(e), 1), Skip(e1, Used(e), 1);
    EndRoomy(e);
    var o := StringEnd(e);
    hide NameReady; hide ValueReady;
    if oe.Run? && !oe.d.t.tooBig && od.Run? {
      assert oe.d == e1;
      if e.stp == NamStr {
        NameReadyLike(od.d, e1, c, e1.str, |e.done|);
      } else {
        ValueReadyLike(od.d, e1, c, |e.done|);
      }
    }
  }

  lemma EndRoomy(e: Dec)
    requires InString(e.stp) && (e.stp == NamStr ==> e.nam == [])
    ensures var o := StringEnd(e); var e1 := e.(left := 0, pend := []);
            o.Run? && !o.d.t.tooBig ==>
              && Skip(e1, Used(e), 1) == Run(e1)
              && (if e.stp == NamStr then o.d.done == e.done && Used(o.d) == Used(e) + 1
                  else |o.d.done| == |e.done| + Used(e) + 1 && Used(o.d) == 0)
  {
    hide Token; hide ValueOk; hide Evict; hide Total;
  }

  lemma FinishLike(d: Dec, e: Dec, c: nat)
    requires Like(d, e, c, Used(e)) && InString(e.stp) && (e.stp == NamStr ==> e.nam == [])
    ensures Follows(Finish(d), Finish(e), |e.done|, c)
  {
    FinishMore(d);
    FinishMore(e);
    StringEndLike(d, e, c);
    hide StringEnd; hide Padding; hide Finish;
  }

  /** What was done for good does not shrink, and a string that goes on does not end the field. */
  lemma FinishGrows(e: Dec)
    requires InString(e.stp) && (e.stp == NamStr ==> e.nam == [])
    ensures var o := Finish(e);
            o.Run? && !o.d.t.tooBig ==> |o.d.done| + Used(o.d) >= |e.done| + Used(e) && (o.d.done == e.done || Used(o.d) == 0)
  {
    FinishMore(e);
    EndRoomy(e);
    hide StringEnd; hide Padding; hide Finish;
  }

  lemma LikeRest(d: Dec, e: Dec, c: nat, left: nat, pend: bits)
    requires Like(d, e, c, Used(e))
    ensures Like(d.(left := left, pend := pend), e.(left := left, pend := pend), c, Used(e))
    ensures d.left == e.left && d.huf == e.huf && d.pend == e.pend && d.stp == e.stp
  {
  }

  /** The field under way is too large already. */
  lemma FinishLarge(o: Out, e: Dec, c: nat)
    requires o.Fail? && o.res == BIG && Used(e) > c && InString(e.stp) && (e.stp == NamStr ==> e.nam == [])
    ensures Follows(o, Finish(e), |e.done|, c)
  {
    FinishGrows(e);
    hide Finish; hide Used;
  }

  /** What an octet gives, once its symbols were written. */
  function Taken(d: Dec, rest: bits): Out {
    Finish(d.(left := if d.left > 0 then d.left - 1 else 0, pend := rest))
  }

  lemma TakenLike(od: Out, e: Dec, c: nat, rest: bits)
    requires InString(e.stp) && (e.stp == NamStr ==> e.nam == [])
    requires !e.t.tooBig ==> if Used(e) <= c then od.Run? && Like(od.d, e, c, Used(e)) else od.Fail? && od.res == BIG
    ensures Follows(if od.Run? then Taken(od.d, rest) else od, Taken(e, rest), |e.done|, c)
  {
    var left := if e.left > 0 then e.left - 1 else 0;
    var e1 := e.(left := left, pend := rest);
    SameUsed(e, left, rest);
    if e.t.tooBig {
      FinishBig(e1);
      hide Finish; hide Used; hide Like;
    } else if od.Run? {
      LikeRest(od.d, e, c, left, rest);
      FinishLike(od.d.(left := left, pend := rest), e1, c);
    } else {
      FinishLarge(od, e1, c);
    }
  }

  lemma SameUsed(d: Dec, left: nat, pend: bits)
    ensures Used(d.(left := left, pend := pend)) == Used(d)
  {
  }

  /** The outcome of an octet that reads as `p`. */
  function Took(d: Dec, p: Parsed): Out {
    match Put(d, p.out)
    case Fail(_, _, _) => Stop(d, BIG)
    case Run(d1) => if p.eos then Stop(d, HUF) else Taken(d1, p.rest)
  }

  lemma TakenAfter(od: Out, oe: Out, was: nat, c: nat, rest: bits)
    requires Follows(od, oe, was, c) && oe.Run? && InString(oe.d.stp) && (oe.d.stp == NamStr ==> oe.d.nam == [])
    requires !oe.d.t.tooBig ==> |oe.d.done| == was
    ensures Follows(if od.Run? then Taken(od.d, rest) else od, Taken(oe.d, rest), was, c)
  {
    TakenLike(od, oe.d, c, rest);
    TakenBig(oe.d, rest);
    hide Taken; hide Like; hide Used;
  }

  lemma TakenBig(d: Dec, rest: bits)
    requires InString(d.stp)
    ensures var o := Taken(d, rest); d.t.tooBig && o.Run? ==> o.d.t.tooBig
  {
    if d.t.tooBig { FinishBig(d.(left := if d.left > 0 then d.left - 1 else 0, pend := rest)); }
    hide Finish;
  }

  lemma TookLike(d: Dec, e: Dec, c: nat, p: Parsed)
    requires Like(d, e, c, Used(e)) && InString(e.stp) && (e.stp == NamStr ==> e.nam == [])
    ensures Follows(Took(d, p), Took(e, p), |e.done|, c)
  {
    PutLike(d, e, c, p.out);
    PutKeeps(d, p.out);
    PutKeeps(e, p.out);
    hide Put; hide Taken; hide Like; hide Used;
    var od, oe := Put(d, p.out), Put(e, p.out);
    if oe.Run? && !p.eos { TakenAfter(od, oe, |e.done|, c, p.rest); }
  }

  lemma PutKeeps(d: Dec, s: seq<byte>)
    ensures var o := Put(d, s);
            if o.Fail? then o.res == BIG
            else o.d.stp == d.stp && o.d.nam == d.nam && (!o.d.t.tooBig ==> o.d.done == d.done && Used(o.d) == Used(d) + |s|)
  {
  }

  lemma OctetLike(env: Env, d: Dec, e: Dec, c: nat, b: byte)
    requires Like(d, e, c, Used(e)) && InString(e.stp) && (e.stp == NamStr ==> e.nam == [])
    ensures Follows(StringOctet(env, d, b), StringOctet(env, e, b), |e.done|, c)
  {
    var p := if e.huf then Parse(env.code, e.pend + Of(b, 8)) else Parsed([b], [], false);
    LikeRest(d, e, c, 0, []);
    TookLike(d, e, c, p);
    StringOctetIs(env, d, b);
    StringOctetIs(env, e, b);
    hide Like; hide Took; hide StringOctet; hide Parse; hide Of; hide Follows;
  }

  lemma StringOctetIs(env: Env, d: Dec, b: byte)
    ensures StringOctet(env, d, b) == Took(d, if d.huf then Parse(env.code, d.pend + Of(b, 8)) else Parsed([b], [], false))
  {
    hide Parse; hide Of; hide Finish;
  }

  lemma FieldIntLike(env: Env, d: Dec, e: Dec, c: nat, v: u16)
    requires Like(d, e, c, 0) && e.stp == FldInt && e.str == [] && e.nam == [] && WfSize(e.t.sz)
    ensures Follows(FieldInt(env, d, v), FieldInt(env, e, v), |e.done|, c)
  {
    LikeSame(d, e, c, 0);
    if IsIndexed(e.typ) {
      NoteLike(d, e, c, 0, FieldEvt(v));
      IndexedLike(env, Notify(d, FieldEvt(v)), Notify(e, FieldEvt(v)), c, v);
      hide Indexed; hide Like;
    } else if IsUpdate(e.typ) {
      UpdateLike(d, e, c, v);
      hide Update; hide Like;
    } else {
      var d1, e1 := d.(idx := v), e.(idx := v);
      NoteLike(d1, e1, c, 0, FieldEvt(0));
      NoteLike(Notify(d1, FieldEvt(0)), Notify(e1, FieldEvt(0)), c, 0, NeverEvt);
      var d2 := (if IsNever(d.typ) then Notify(Notify(d1, FieldEvt(0)), NeverEvt) else Notify(d1, FieldEvt(0))).(stp := NamLen);
      var e2 := (if IsNever(e.typ) then Notify(Notify(e1, FieldEvt(0)), NeverEvt) else Notify(e1, FieldEvt(0))).(stp := NamLen);
      assert Like(d2, e2, c, 0);
      IndexedNameLike(env, d2, e2, c);
      hide IndexedName; hide Like;
    }
  }

  lemma LikeSame(d: Dec, e: Dec, c: nat, used: nat)
    requires Like(d, e, c, used)
    ensures d == e.(cap := c, done := d.done, t := d.t) && d.t.sz == e.t.sz
    ensures !e.t.tooBig && (d.t.tooBig <==> |e.done| + used > c)
  {
  }

  /** Fields that have nothing to do with the table or the buffer change alike. */
  lemma LikeInt(d: Dec, e: Dec, c: nat, typ: byte, canUpd: bool, huf: bool, bsy: bool, hpi: Hpi)
    requires Like(d, e, c, Used(e))
    ensures var e1 := e.(typ := typ, canUpd := canUpd, huf := huf, bsy := bsy, hpi := hpi);
            Like(d.(typ := typ, canUpd := canUpd, huf := huf, bsy := bsy, hpi := hpi), e1, c, Used(e1)) && Used(e1) == Used(e)
  {
  }

  lemma IntLike(env: Env, d: Dec, e: Dec, c: nat, b: byte)
    requires Like(d, e, c, Used(e)) && Inv(e) && e.stp == FldInt
    ensures Follows(Feed(env, d, b), Feed(env, e, b), |e.done|, c)
  {
    NothingWritten(e);
    LikeSame(d, e, c, Used(e));
    assert e.nam == [] && WfSize(e.t.sz) && Used(e) == 0;
    hide Like; hide Inv; hide FieldInt; hide IntOctet;
    var h := if e.bsy then Run(e) else Head(e, b);
    if h.Run? {
      var r := IntOctet(h.d, Prefix(h.d.typ), b);
      match r {
        case More(g) => LikeInt(d, e, c, h.d.typ, h.d.canUpd, e.huf, true, g);
        case Done(v) =>
          LikeInt(d, e, c, h.d.typ, h.d.canUpd, e.huf, false, IDLE);
          FieldIntLike(env, d.(typ := h.d.typ, canUpd := h.d.canUpd, bsy := false, hpi := IDLE), h.d.(bsy := false, hpi := IDLE), c, v);
        case Overflow =>
      }
    }
  }

  lemma BegunLike(d: Dec, e: Dec, c: nat, len: nat)
    requires Like(d, e, c, Used(e)) && (e.stp == NamLen || e.stp == ValLen)
    ensures Like(Begun(d, len), Begun(e, len), c, Used(Begun(e, len)))
  {
  }

  lemma LengthLike(env: Env, d: Dec, e: Dec, c: nat, b: byte)
    requires Like(d, e, c, Used(e)) && Inv(e) && (e.stp == NamLen || e.stp == ValLen)
    ensures Follows(Feed(env, d, b), Feed(env, e, b), |e.done|, c)
  {
    LikeSame(d, e, c, Used(e));
    assert e.stp == NamLen ==> e.nam == [];
    hide Like; hide Inv; hide StringBegin; hide IntOctet; hide Used;
    var huf := if e.bsy then e.huf else b >= 0x80;
    var r := IntOctet(e, 7, b);
    match r
    case More(g) => LikeInt(d, e, c, e.typ, e.canUpd, huf, true, g);
    case Done(v) =>
      var d1, e1 := d.(huf := huf, bsy := false, hpi := IDLE), e.(huf := huf, bsy := false, hpi := IDLE);
      LikeInt(d, e, c, e.typ, e.canUpd, huf, false, IDLE);
      BeginLike(d1, e1, c, v);
    case Overflow =>
  }

  lemma BeginLike(d: Dec, e: Dec, c: nat, len: nat)
    requires Like(d, e, c, Used(e)) && (e.stp == NamLen || e.stp == ValLen) && (e.stp == NamLen ==> e.nam == [])
    ensures Follows(StringBegin(d, len), StringBegin(e, len), |e.done|, c)
  {
    LikeSame(d, e, c, Used(e));
    BeginIs(d, len);
    BeginIs(e, len);
    BegunLike(d, e, c, len);
    FinishLike(Begun(d, len), Begun(e, len), c);
    hide Finish; hide StringBegin; hide StringEnd; hide Follows;
  }

  lemma FeedLike(env: Env, d: Dec, e: Dec, c: nat, b: byte)
    requires Like(d, e, c, Used(e)) && Inv(e)
    ensures Follows(Feed(env, d, b), Feed(env, e, b), |e.done|, c)
  {
    match e.stp
    case FldInt => IntLike(env, d, e, c, b);
    case NamLen | ValLen => LengthLike(env, d, e, c, b);
    case NamStr | ValStr => OctetLike(env, d, e, c, b);
  }

  // ---- whole blocks ----

  /** Every field fits alone in `c` octets. */
  ghost predicate Fit(l: seq<Item>, c: nat) {
    forall f :: f in Fields(l) ==> |f.nam| + |f.val| + 2 <= c
  }

  /** The fields so far and the one under way fit alone. */
  ghost predicate Roomy(l: seq<Item>, e: Dec, c: nat) {
    Fit(l, c) && Used(e) <= c
  }

  lemma FitStep(was: seq<Event>, e: Dec, e1: Dec, l: seq<Item>, l1: seq<Item>, c: nat)
    requires Story(was, e, l) && Story(was, e1, l1) && Longer(l, l1)
    ensures |e1.done| >= |e.done| && (Fit(l1, c) <==> Fit(l, c) && |e1.done| - |e.done| <= c)
  {
    hide ItemEvents; hide Opens; hide UpdatesLeft;
    if l1 != l {
      var i :| l1 == l + [i];
      Snoc(l, i);
      hide Story; hide Events; hide Fields; hide Pack;
      if !i.UpdateItem? {
        var f := Entry(i.nam, i.val);
        assert forall g :: g in Fields(l1) <==> g in Fields(l) || g == f;
      }
    }
  }

  lemma FeedGrows(env: Env, e: Dec, b: byte)
    requires Inv(e) && !e.t.tooBig && Used(e) > 0
    ensures var o := Feed(env, e, b);
            o.Run? && !o.d.t.tooBig ==> |o.d.done| + Used(o.d) >= |e.done| + Used(e) && (o.d.done == e.done || Used(o.d) == 0)
  {
    InUse(e);
    hide Inv;
    if InString(e.stp) {
      var p := if e.huf then Parse(env.code, e.pend + Of(b, 8)) else Parsed([b], [], false);
      StringOctetIs(env, e, b);
      PutKeeps(e, p.out);
      hide Put; hide Finish; hide Parse; hide Of; hide StringOctet; hide Used;
      var o := Put(e, p.out);
      if o.Run? && !p.eos {
        var left := if o.d.left > 0 then o.d.left - 1 else 0;
        SameUsed(o.d, left, p.rest);
        if o.d.t.tooBig {
          FinishBig(o.d.(left := left, pend := p.rest));
        } else {
          FinishGrows(o.d.(left := left, pend := p.rest));
        }
      }
    } else {
      hide Finish; hide IntOctet; hide StringBegin;
      var d1 := if e.bsy then e else e.(huf := b >= 0x80);
      var r := IntOctet(d1, 7, b);
      if r.Done? {
        var e1 := d1.(bsy := false, hpi := IDLE);
        BeginIs(e1, r.v);
        FinishGrows(Begun(e1, r.v));
      }
    }
  }

  lemma InUse(e: Dec)
    requires Inv(e) && Used(e) > 0
    ensures e.stp != FldInt && (InName(e.stp) ==> e.nam == [])
  {
  }

  /** Once a field does not fit, nothing makes it fit again. */
  lemma {:induction false} StaysLarge(env: Env, was: seq<Event>, e: Dec, c: nat, s: seq<byte>, l: seq<Item>) returns (l': seq<Item>)
    requires WfEnv(env) && Inv(e) && Story(was, e, l) && !Roomy(l, e, c)
    ensures var o := FeedAll(env, Run(e), s); o.Run? && !o.d.t.tooBig ==> Story(was, o.d, l') && !Roomy(l', o.d, c)
    decreases |s|
  {
    hide WfEnv; hide Inv; hide Feed; hide Story; hide Fit;
    FeedNothing(env);
    l' := l;
    if s != [] {
      var o := Feed(env, e, s[0]);
      FeedInv(env, e, s[0]);
      var l1 := FeedStory(env, was, e, s[0], l);
      if o.Run? {
        if o.d.t.tooBig {
          FeedAllBig(env, o, s[1..]);
        } else {
          FitStep(was, e, o.d, l, l1, c);
          StoryBig(was, e, l);
          if Used(e) > 0 { FeedGrows(env, e, s[0]); }
          l' := StaysLarge(env, was, o.d, c, s[1..], l1);
        }
      }
    }
  }

  lemma StoryBig(was: seq<Event>, e: Dec, l: seq<Item>)
    requires Story(was, e, l)
    ensures !e.t.tooBig
  {
  }

  lemma {:induction false} RunLike(env: Env, was: seq<Event>, d: Dec, e: Dec, c: nat, s: seq<byte>, l: seq<Item>)
    returns (l': seq<Item>)
    requires WfEnv(env) && Inv(e) && Like(d, e, c, Used(e)) && Story(was, e, l) && Fit(l, c)
    ensures var oe, od := FeedAll(env, Run(e), s), FeedAll(env, Run(d), s);
            oe.Run? && !oe.d.t.tooBig ==>
              && Story(was, oe.d, l')
              && if Roomy(l', oe.d, c) then od.Run? && Like(od.d, oe.d, c, Used(oe.d)) else od.Fail? && od.res == BIG
    decreases |s|
  {
    hide Pack; hide Updates; hide Token; hide Parse; hide StringDone; hide Events;
    hide FieldInt; hide StringOctet; hide Fields; hide Total; hide Update; hide Opens;
    LikeUsed(d, e, c);
    hide WfEnv; hide Inv; hide Feed; hide Story; hide Fit; hide Like;
    FeedNothing(env);
    l' := l;
    if s != [] {
      var oe, od := Feed(env, e, s[0]), Feed(env, d, s[0]);
      FeedInv(env, e, s[0]);
      FeedLike(env, d, e, c, s[0]);
      var l1 := FeedStory(env, was, e, s[0], l);
      if oe.Run? {
        if oe.d.t.tooBig {
          FeedAllBig(env, oe, s[1..]);
        } else {
          FitStep(was, e, oe.d, l, l1, c);
          if Roomy(l1, oe.d, c) {
            l' := RunLike(env, was, od.d, oe.d, c, s[1..], l1);
          } else {
            l' := StaysLarge(env, was, oe.d, c, s[1..], l1);
          }
        }
      }
    }
  }

  lemma LikeUsed(d: Dec, e: Dec, c: nat)
    requires Like(d, e, c, Used(e))
    ensures Used(e) <= c
  {
  }

  /** The table, its limits, and the events up to the first field that was discarded. */
  ghost predicate SameTable(od: Out, e: Dec) {
    od.Run? && od.d.t.es == e.t.es && od.d.t.sz == e.t.sz && od.d.t.evs <= e.t.evs
  }

  /**
   A block that decodes without discarding anything in a buffer of `cap` octets, decoded with a buffer of `c` octets: it
   fails if some field alone is too large, and otherwise the table and its limits end the same. Fields were discarded if
   and only if the block does not fit as a whole.
   */
  lemma SkipExact(env: Env, d: Dec, c: nat, cap: nat, s: seq<byte>) returns (l: seq<Item>)
    requires WfEnv(env) && Inv(d) && !MidField(d) && !d.t.tooBig && c <= cap
    ensures var oe, od := FeedAll(env, Run(Start(d, cap)), s), FeedAll(env, Run(Start(d, c)), s);
            oe.Run? && !MidField(oe.d) && !oe.d.t.tooBig ==>
              && oe.d.done == Pack(Fields(l)) && oe.d.t.evs == d.t.evs + Events(l)
              && Verdict(od, false) == (if !Fit(l, c) then BIG else if |Pack(Fields(l))| > c then SKP else OK)
              && (Fit(l, c) ==> SameTable(od, oe.d))
  {
    var e := Start(d, cap);
    StartInv(d, cap);
    StoryStarts(d, cap);
    NothingWritten(d);
    assert Like(Start(d, c), e, c, Used(e));
    l := RunLike(env, d.t.evs, Start(d, c), e, c, s, []);
    var oe, od := FeedAll(env, Run(e), s), FeedAll(env, Run(Start(d, c)), s);
    if oe.Run? && !MidField(oe.d) && !oe.d.t.tooBig {
      FeedAllInv(env, Run(e), s);
      NothingWritten(oe.d);
      hide FeedAll; hide Inv; hide WfEnv; hide Fit;
      var a := d.t.evs + Events(l);
      assert a + [] == a;
    }
  }
}

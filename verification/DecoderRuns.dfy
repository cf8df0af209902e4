/** Any sequence of calls of hpack_resize and hpack_decode: what is stored stays within the limits, and the limits within the memory. */
module DecoderRuns {
  import opened Common
  import opened Bits
  import opened HuffmanCode
  import opened HuffmanTables
  import opened Validate
  import opened TableSpec
  import opened TableBytes
  import opened HpackTbl
  import opened DecoderSpec
  import opened DecoderScan
  import opened DecoderBlock
  import opened HpackDecoder

  /** A call: a new maximum, or a chunk of a block with a buffer of `cap` octets. */
  datatype Op = ResizeTo(len: nat) | Chunk(cap: nat, s: seq<byte>, cut: bool)

  /** A decoder that works: its state, the size of its memory, and whether a block is under way. */
  datatype Codec = Codec(d: Dec, mem: nat, blk: bool)

  /** The decoder past a call, or none if it is of no use any more. */
  function Do(env: Env, c: Codec, op: Op): Option<Codec> {
    match op
    case ResizeTo(len) =>
      if c.blk then Some(c)
      else if len >= 0x1_0000 then None
      else Some(c.(d := c.d.(t := c.d.t.(sz := Resized(c.d.t.sz, len))), mem := if len <= c.mem then c.mem else len))
    case Chunk(cap, s, cut) =>
      if s == [] || cap == 0 then Some(c)
      else if (if c.blk then cap != c.d.cap else c.d.t.tooBig) then None
      else
        var o := Called(env, c.d, c.blk, cap, s);
        if o.Run? && Verdict(o, cut) != BUF then Some(Codec(o.d, c.mem, cut)) else None
  }

  function DoAll(env: Env, c: Codec, ops: seq<Op>): Option<Codec>
    decreases |ops|
  {
    if ops == [] then Some(c)
    else match Do(env, c, ops[0]) case Some(r) => DoAll(env, r, ops[1..]) case None => None
  }

  /** The limits fit in the memory, also those to come. */
  predicate SizeFits(s: Size, mem: nat) {
    s.max <= mem < 0x1_0000 && s.nxt <= mem
  }

  predicate Working(c: Codec) {
    Inv(c.d) && SizeFits(c.d.t.sz, c.mem) && (!c.blk ==> !MidField(c.d))
  }

  lemma ResizeFits(d: Dec, s: Size, lim: nat, mem: nat)
    requires SizeFits(s, mem)
    ensures var o := Resize(d, s, lim); o.Run? ==> SizeFits(o.d.t.sz, mem)
  {
    AdjustEs(d.t.(sz := s.(lim := lim)), Total(d.t.es));
    hide Adjust;
  }

  /** Only updates change the limits. */
  lemma FieldIntFits(env: Env, d: Dec, v: nat, mem: nat)
    requires SizeFits(d.t.sz, mem)
    ensures var o := FieldInt(env, d, v); o.Run? ==> SizeFits(o.d.t.sz, mem)
  {
    hide SizeFits; hide Resize; hide Lookup; hide Token;
    if IsUpdate(d.typ) && !IsIndexed(d.typ) {
      var s := d.t.sz;
      assert SizeFits(s.(min := s.nxt), mem) && (s.nxt >= 0 ==> SizeFits(Size(s.nxt, v, -1, -1), mem)) by { OtherSizes(s, v, mem); }
      ResizeFits(d, s.(min := s.nxt), v, mem);
      ResizeFits(d.(canUpd := false), s, v, mem);
      if s.nxt >= 0 { ResizeFits(d.(canUpd := false), Size(s.nxt, v, -1, -1), v, mem); }
    }
  }

  lemma OtherSizes(s: Size, v: nat, mem: nat)
    requires SizeFits(s, mem)
    ensures SizeFits(s.(min := s.nxt), mem) && (s.nxt >= 0 ==> SizeFits(Size(s.nxt, v, -1, -1), mem))
  {
  }

  lemma ReportKeeps(d: Dec)
    ensures var o := ValueReady(d); o.Run? ==> o.d.t.sz == d.t.sz
  {
    var t := Report(d.(done := d.done + Packed(d.nam, d.str)), d.nam, d.str).t;
    AdjustEs(t, Total(t.es) + EntrySize(Entry(d.nam, d.str)));
    hide Adjust; hide ValueOk;
  }

  lemma DoneKeeps(d: Dec)
    ensures var o := StringDone(d); o.Run? ==> o.d.t.sz == d.t.sz
  {
    hide Token; hide ValueReady;
    ReportKeeps(d);
  }

  lemma FinishKeeps(d: Dec)
    ensures var o := Finish(d); o.Run? ==> o.d.t.sz == d.t.sz
  {
    hide Padding; hide StringDone;
    var o := Skip(d.(left := 0, pend := []), Used(d), 1);
    if o.Run? { DoneKeeps(o.d); }
  }

  lemma FeedFits(env: Env, d: Dec, b: byte, mem: nat)
    requires SizeFits(d.t.sz, mem)
    ensures var o := Feed(env, d, b); o.Run? ==> SizeFits(o.d.t.sz, mem)
  {
    hide SizeFits; hide FieldInt; hide Finish; hide Parse; hide IntOctet;
    match d.stp
    case FldInt =>
      var h := if d.bsy then Run(d) else Head(d, b);
      if h.Run? {
        var r := IntOctet(h.d, Prefix(h.d.typ), b);
        if r.Done? { FieldIntFits(env, h.d.(bsy := false, hpi := IDLE), r.v, mem); }
      }
    case NamLen | ValLen =>
      var d1 := if d.bsy then d else d.(huf := b >= 0x80);
      var r := IntOctet(d1, 7, b);
      if r.Done? {
        var d2 := d1.(bsy := false, hpi := IDLE);
        FinishKeeps(d2.(stp := if d2.stp == NamLen then NamStr else ValStr, left := r.v, pend := []));
      }
    case NamStr | ValStr =>
      var p := if d.huf then Parse(env.code, d.pend + Of(b, 8)) else Parsed([b], [], false);
      var o := Put(d, p.out);
      if o.Run? { FinishKeeps(o.d.(left := if d.left > 0 then d.left - 1 else 0, pend := p.rest)); }
  }

  lemma {:induction false} FeedAllFits(env: Env, o: Out, s: seq<byte>, mem: nat)
    requires WfEnv(env) && (o.Run? ==> Inv(o.d) && SizeFits(o.d.t.sz, mem))
    ensures var r := FeedAll(env, o, s); r.Run? ==> Inv(r.d) && SizeFits(r.d.t.sz, mem)
    decreases |s|
  {
    hide Inv; hide SizeFits; hide Feed; hide WfEnv;
    if s != [] && o.Run? {
      FeedInv(env, o.d, s[0]);
      FeedFits(env, o.d, s[0], mem);
      FeedAllFits(env, Feed(env, o.d, s[0]), s[1..], mem);
    }
  }

  lemma DoWorks(env: Env, c: Codec, op: Op)
    requires WfEnv(env) && Working(c)
    ensures var r := Do(env, c, op); r.Some? ==> Working(r.value)
  {
    hide WfEnv; hide Inv; hide FeedAll;
    match op
    case ResizeTo(len) =>
      if !c.blk && len < 0x1_0000 { ResizedInv(c.d, len); }
    case Chunk(cap, s, cut) =>
      if s != [] {
        if c.blk { ResumeInv(c.d, s[0]); } else { StartInv(c.d, cap); }
        FeedAllFits(env, Run(if c.blk then Resume(c.d, s[0]) else Start(c.d, cap)), s, c.mem);
      }
  }

  /** Over any run the entries fit in the effective limit, that one in the maximum, and the maximum in the memory. */
  lemma {:induction false} RunInBounds(env: Env, c: Codec, ops: seq<Op>)
    requires WfEnv(env) && Working(c)
    ensures match DoAll(env, c, ops)
            case Some(r) => var sz := r.d.t.sz; 32 * |r.d.t.es| <= Total(r.d.t.es) <= Limit(sz) <= sz.max <= r.mem < 0x1_0000
            case None => true
    decreases |ops|
  {
    hide Do; hide WfEnv;
    if ops == [] {
      TotalAtLeast(c.d.t.es);
      hide Total; hide AllGood;
    } else {
      hide Working;
      DoWorks(env, c, ops[0]);
      var r := Do(env, c, ops[0]);
      if r.Some? { RunInBounds(env, r.value, ops[1..]); }
    }
  }

  // ---- on the class ----

  ghost function CodecOf(dec: Decoder): Codec
    reads dec, dec.hp
  {
    Codec(dec.S(), dec.hp.mem, dec.res == BLK)
  }

  /** The lemma above holds of any decoder between two calls. */
  lemma ReadyWorks(dec: Decoder)
    requires dec.Ready()
    ensures WfEnv(dec.env) && Working(CodecOf(dec))
  {
    hide IsTable; hide AllGood; hide Total; hide WfEnv; hide WfTables; hide Windowed; hide Pend;
  }

  /** The class makes the same steps; after the last one its table of `len` octets is in its memory. */
  method Operate(dec: Decoder, ops: seq<Op>) returns (ok: bool)
    requires dec.Ready()
    modifies dec, dec.hp, dec.hp.tbl, dec.buf
    ensures ok == DoAll(dec.env, old(CodecOf(dec)), ops).Some?
    ensures ok ==> dec.Ready() && DoAll(dec.env, old(CodecOf(dec)), ops) == Some(CodecOf(dec))
    ensures ok ==> var hp := dec.hp; hp.len == Total(hp.es) <= Limit(hp.sz) <= hp.sz.max <= hp.mem == hp.tbl.Length
    decreases |ops|
  {
    if ops == [] {
      ReadyBounds(dec);
      return true;
    }
    hide Decoder.Ready; hide CodecOf; hide Do;
    ok := OperateOnce(dec, ops[0]);
    if ok { ok := Operate(dec, ops[1..]); }
  }

  lemma ReadyBounds(dec: Decoder)
    requires dec.Ready()
    ensures var hp := dec.hp; hp.len == Total(hp.es) <= Limit(hp.sz) <= hp.sz.max <= hp.mem == hp.tbl.Length
  {
    hide Inv; hide IsTable; hide AllGood; hide Total;
    dec.hp.InBounds();
  }

  method OperateResize(dec: Decoder, len: nat) returns (ok: bool)
    requires dec.Ready()
    modifies dec`defunct, dec.hp`mem, dec.hp`tbl, dec.hp`sz
    ensures ok == Do(dec.env, old(CodecOf(dec)), ResizeTo(len)).Some?
    ensures ok ==> dec.Ready() && Do(dec.env, old(CodecOf(dec)), ResizeTo(len)) == Some(CodecOf(dec))
    ensures dec.hp.tbl == old(dec.hp.tbl) || fresh(dec.hp.tbl)
  {
    ReadyFacts(dec);
    hide Decoder.Valid; hide Decoder.S;
    var r := dec.Resize(len);
    ok := r != LEN;
  }

  method OperateSome(dec: Decoder, cap: nat, s: seq<byte>, cut: bool) returns (ok: bool)
    requires dec.Ready() && s != [] && cap > 0
    modifies dec, dec.hp, dec.hp.tbl, dec.buf
    ensures ok == Do(dec.env, old(CodecOf(dec)), Chunk(cap, s, cut)).Some?
    ensures ok ==> dec.Ready() && Do(dec.env, old(CodecOf(dec)), Chunk(cap, s, cut)) == Some(CodecOf(dec))
    ensures dec.hp.tbl == old(dec.hp.tbl) && (dec.buf == old(dec.buf) || fresh(dec.buf))
  {
    hide Decoder.Core; hide FeedAll; hide Inv; hide Hpack.Valid; hide Update;
    ReadyFacts(dec);
    hide Decoder.Valid; hide Decoder.S; hide Called; hide MidField;
    var b := dec.buf;
    if !(dec.res == BLK && cap == b.Length) { b := new byte[cap](i => 0); }
    var r := dec.Decode(s, b, cut);
    ok := r == OK || r == SKP || r == BLK;
    if ok { ReadyFacts(dec); }
  }

  method OperateChunk(dec: Decoder, cap: nat, s: seq<byte>, cut: bool) returns (ok: bool)
    requires dec.Ready()
    modifies dec, dec.hp, dec.hp.tbl, dec.buf
    ensures ok == Do(dec.env, old(CodecOf(dec)), Chunk(cap, s, cut)).Some?
    ensures ok ==> dec.Ready() && Do(dec.env, old(CodecOf(dec)), Chunk(cap, s, cut)) == Some(CodecOf(dec))
    ensures dec.hp.tbl == old(dec.hp.tbl) && (dec.buf == old(dec.buf) || fresh(dec.buf))
  {
    if s != [] && cap > 0 {
      hide Decoder.Ready; hide CodecOf; hide Do;
      ok := OperateSome(dec, cap, s, cut);
    } else {
      ReadyFacts(dec);
      hide Decoder.Valid; hide Decoder.S;
      var b := new byte[cap](i => 0);
      var r := dec.Decode(s, b, cut);
      ok := true;
    }
  }

  lemma ReadyFacts(dec: Decoder)
    requires dec.Ready()
    ensures !dec.defunct && dec.hp.mem == dec.hp.tbl.Length && dec.hp.tbl != dec.buf
    ensures dec.S().cap == dec.buf.Length && dec.S().t == dec.hp.State()
  {
  }

  method OperateOnce(dec: Decoder, op: Op) returns (ok: bool)
    requires dec.Ready()
    modifies dec, dec.hp, dec.hp.tbl, dec.buf
    ensures ok == Do(dec.env, old(CodecOf(dec)), op).Some?
    ensures ok ==> dec.Ready() && Do(dec.env, old(CodecOf(dec)), op) == Some(CodecOf(dec))
    ensures (dec.hp.tbl == old(dec.hp.tbl) || fresh(dec.hp.tbl)) && (dec.buf == old(dec.buf) || fresh(dec.buf))
  {
    hide Decoder.Ready; hide CodecOf; hide Do;
    match op {
      case ResizeTo(len) => ok := OperateResize(dec, len);
      case Chunk(cap, s, cut) => ok := OperateChunk(dec, cap, s, cut);
    }
  }
}

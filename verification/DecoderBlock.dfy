/** What a call of hpack_decode does to the abstract decoder. */
module DecoderBlock {
  import opened Common
  import opened Bits
  import opened HuffmanCode
  import opened Validate
  import opened TableSpec
  import opened DecoderSpec
  import opened DecoderScan

  /** A field is under way. */
  predicate MidField(d: Dec) {
    d.bsy || d.stp != FldInt
  }

  /** The first chunk of a block, with a buffer of `cap` octets. */
  function Start(d: Dec, cap: nat): Dec {
    d.(canUpd := true, done := [], cap := cap)
  }

  /** The next chunks: the H bit of a string length under way is read again from their first octet. */
  function Resume(d: Dec, b: byte): Dec {
    if d.bsy && d.stp != FldInt then d.(huf := b >= 0x80) else d
  }

  /** What the call returns once the chunk was read. */
  function Verdict(o: Out, cut: bool): Res {
    match o
    case Fail(r, _, _) => r
    case Run(d) => if cut then BLK else if MidField(d) then BUF else if d.t.tooBig then SKP else OK
  }

  lemma StartInv(d: Dec, cap: nat)
    requires Inv(d) && !MidField(d)
    ensures Inv(Start(d, cap))
  {
    hide AllGood; hide Total; hide WfSize;
  }

  lemma ResumeInv(d: Dec, b: byte)
    requires Inv(d)
    ensures Inv(Resume(d, b))
  {
    hide AllGood; hide Total; hide WfSize;
  }

  /** A whole call: the next chunk of a block, or the first one. */
  function Called(env: Env, d: Dec, resumed: bool, cap: nat, block: seq<byte>): Out
    requires block != []
  {
    FeedAll(env, Run(if resumed then Resume(d, block[0]) else Start(d, cap)), block)
  }

  /** The errors that decoding can run into. */
  predicate Failure(r: Res) {
    r == INT || r == IDX || r == LEN || r == HUF || r == CHR || r == UPD || r == RSZ || r == HDR || r == BIG
  }

  lemma FinishFailure(d: Dec)
    ensures var o := Finish(d); o.Fail? ==> Failure(o.res)
  {
    hide ValueOk; hide Report; hide Index; hide Padding;
  }

  lemma FieldIntFailure(env: Env, d: Dec, v: nat)
    ensures var o := FieldInt(env, d, v); o.Fail? ==> Failure(o.res)
  {
    hide Lookup; hide Adjust; hide Index; hide Report;
  }

  lemma FeedFailure(env: Env, d: Dec, b: byte)
    ensures var o := Feed(env, d, b); o.Fail? ==> Failure(o.res)
  {
    hide Put;
    hide Parse; hide IntOctet; hide Finish; hide FieldInt;
    match d.stp
    case NamStr | ValStr =>
      var p := if d.huf then Parse(env.code, d.pend + Of(b, 8)) else Parsed([b], [], false);
      var o := Put(d, p.out);
      if o.Run? { FinishFailure(o.d.(left := if d.left > 0 then d.left - 1 else 0, pend := p.rest)); }
    case NamLen | ValLen =>
      var d1 := if d.bsy then d else d.(huf := b >= 0x80);
      var r := IntOctet(d1, 7, b);
      if r.Done? { FinishFailure(Begun(d1.(bsy := false, hpi := IDLE), r.v)); }
    case FldInt =>
      var h := if d.bsy then Run(d) else Head(d, b);
      if h.Run? {
        var r := IntOctet(h.d, Prefix(h.d.typ), b);
        if r.Done? { FieldIntFailure(env, h.d.(bsy := false, hpi := IDLE), r.v); }
      }
  }

  lemma {:induction false} FeedAllFailure(env: Env, o: Out, s: seq<byte>)
    requires o.Fail? ==> Failure(o.res)
    ensures var f := FeedAll(env, o, s); f.Fail? ==> Failure(f.res)
    decreases |s|
  {
    if s != [] && o.Run? {
      FeedFailure(env, o.d, s[0]);
      FeedAllFailure(env, Feed(env, o.d, s[0]), s[1..]);
    }
  }

  lemma ResizedInv(d: Dec, len: u16)
    requires Inv(d) && !MidField(d)
    ensures Inv(d.(t := d.t.(sz := Resized(d.t.sz, len))))
  {
    hide AllGood; hide Total;
  }

  lemma BigInv(d: Dec)
    requires Inv(d)
    ensures Inv(d.(t := d.t.(tooBig := false)))
  {
    hide AllGood; hide Total; hide WfSize;
  }
}

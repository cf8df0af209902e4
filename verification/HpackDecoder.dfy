/**
 The decoding half of the codec: `struct hpack_state`, `struct hpack_ctx` and the functions of lib/hpack_dec.c,
 lib/hpack_int.c, lib/hpack_huf.c and lib/hpack.c that work on them. A method that can fail returns false and sets `res`,
 as the EXPECT and CALL macros do.
 */
module HpackDecoder {
  import opened Common
  import opened Bits
  import opened HuffmanCode
  import opened HuffmanTables
  import opened IntSpec
  import opened Validate
  import opened TableSpec
  import opened HpackTbl
  import opened DecoderSpec
  import opened DecoderScan
  import opened DecoderBlock

  /** Moving the current field to the start of the buffer. */
  lemma Compacted(was: seq<byte>, done: seq<byte>, field: seq<byte>, pos: nat)
    requires pos <= |was| && was[..pos] == done + field
    ensures pos == |done| + |field| && Move(was, 0, |done|, |field|)[..|field|] == field
  {
    var n, l := |done|, |field|;
    assert |was[..pos]| == n + l;
    var t := was[n..n + l];
    assert t == was[..pos][n..];
    AppendTake(done, field);
    BlitSlice(was, 0, t, 0, l);
    assert t[0..l] == t;
    hide Blit;
  }

  /** The abstract effect of HPD_cat. */
  lemma PutIs(d: Dec, d': Dec, s: seq<byte>)
    requires d' == d.(str := d.str + s, done := d'.done, t := d.t.(tooBig := d'.t.tooBig))
    requires Used(d) + |s| <= d.cap
    requires if |d.done| + Used(d) + |s| <= d.cap then d'.done == d.done && d'.t == d.t else d'.done == [] && d'.t.tooBig
    ensures Put(d, s) == Run(d')
  {
  }

  lemma PutFails(d: Dec, s: seq<byte>)
    requires Used(d) + |s| > d.cap
    ensures Put(d, s) == Stop(d, BIG)
  {
  }

  /** One entry, when `out` was read so far of what reads as `p`. */
  ghost predicate Reads(c: Code, ts: Tables, h: HufState, p: Parsed, out: seq<byte>, step: Look)
    requires Windowed(ts, h)
  {
    match step
    case Premature => p.eos && p.out == out
    case Wait => h.blen < 8 && Parse(c, Pend(ts, h)) == Parsed([], Pend(ts, h), false)
    case Taken(g, s) =>
      && Windowed(ts, g) && g.dec.Some? && Shaped(ts, g.dec.value) && g.blen < h.blen
      && p == Prepend(out + s, Parse(c, Pend(ts, g))) && out + s <= p.out
      && (s == [] <==> Path(ts, g) != [])
  }

  lemma ReadsEntry(c: Code, ts: Tables, h: HufState, p: Parsed, out: seq<byte>)
    requires WfCode(c) && WfTables(c, ts) && Windowed(ts, h) && h.dec.Some? && p == Prepend(out, Parse(c, Pend(ts, h)))
    ensures var d := ts.tabs[h.dec.value]; d.len <= 8 && h.bits / Pow2(16 - d.len) % 256 < |d.oct|
    ensures Reads(c, ts, h, p, out, Look1(ts, h))
  {
    Look1Parse(c, ts, h);
    match Look1(ts, h)
    case Premature => assert out + [] == out;
    case Wait =>
    case Taken(g, s) =>
      PrependTwice(out, s, Parse(c, Pend(ts, g)));
      TooShort(c, ts, g);
  }

  lemma PutNothing(d: Dec)
    requires |d.done| + Used(d) <= d.cap
    ensures Put(d, []) == Run(d)
  {
    assert d.str + [] == d.str;
  }

  /** Where the octets `out` were written, what happens to `s` next, and so to the whole of `t`. */
  lemma PutAll(d: Dec, out: seq<byte>, s: seq<byte>, t: seq<byte>)
    requires out + s <= t
    ensures Put(d, out + s) == match Put(d, out) { case Run(d1) => Put(d1, s) case f => f }
    ensures Put(d, out + s).Fail? ==> Put(d, t).Fail?
  {
    PutTwice(d, out, s);
    var r := t[|out + s|..];
    assert t == out + s + r;
    PutTwice(d, out + s, r);
  }

  lemma Written(was: seq<byte>, t: seq<byte>, s: seq<byte>, pos: nat)
    requires pos + |s| <= |was| && was[..pos] == t
    ensures Blit(was, pos, s)[..pos + |s|] == t + s
  {
  }

  class Decoder {
    const env: Env
    const ts: Tables
    const hp: Hpack

    // struct hpack_state
    var stp: Step
    var bsy: bool
    var idx: nat
    var typ: byte
    var hpi: Hpi
    var hufMagic: bool
    var left: nat
    var hs: HufState

    // struct hpack_ctx: the input left, the output buffer, the current field as offsets in it
    var blk: seq<byte>
    var buf: array<byte>
    var pos: nat
    var nam: Option<nat>
    var namSz: nat
    var val: Option<nat>
    var canUpd: bool
    var res: Res
    /** The magic number of a codec that failed. */
    var defunct: bool

    /** What the buffer holds: whole fields, the name of the current one with its NUL, the string under way. */
    ghost var done: seq<byte>
    ghost var head: seq<byte>
    ghost var str: seq<byte>
    ghost var name: seq<byte>
    /** The H bit of the string length under way. */
    ghost var huf: bool

    /** The tables are sound, and the buffer holds what the ghost fields say. */
    ghost predicate Core()
      reads `pos, `buf, `done, `head, `str, hp`sz, hp`mem, hp`len, hp`cnt, hp`tbl, hp`es, hp.tbl, buf
    {
      && WfEnv(env) && WfTables(env.code, ts)
      && hp.Valid() && !hp.mon && hp.tbl != buf
      && pos <= buf.Length && buf[..pos] == done + head + str
    }

    /** The abstract decoder without what is left of a string. */
    ghost function Q(): Dec
      reads `canUpd, `stp, `bsy, `typ, `idx, `hpi, `huf, `done, `buf, `name, `str, hp`es, hp`sz, hp`evs, hp`tooBig
    {
      Dec(hp.State(), canUpd, stp, bsy, typ, idx, if bsy then hpi else IDLE, huf, 0, [], done, buf.Length, name, str)
    }

    /** The abstract decoder. */
    ghost function S(): Dec
      reads `canUpd, `stp, `bsy, `typ, `idx, `hpi, `huf, `done, `buf, `name, `str, `left, `hs, hp`es, hp`sz, hp`evs, hp`tooBig
    {
      Q().(left := if InString(stp) then left else 0,
           pend := if InString(stp) && huf && Windowed(ts, hs) then Pend(ts, hs) else [])
    }

    /** What is before the string under way, and where the C pointers stand. */
    ghost predicate Headed()
      reads `nam, `val, `namSz, `head, `name, `done
    {
      && head == (if val.Some? then name + [0] else [])
      && (nam.Some? ==> nam.value == |done|)
      && (val.Some? ==> namSz == |name| && val.value == |done| + |name| + 1)
    }

    /** The pointers are set as the step tells. */
    ghost predicate Linked()
      reads `nam, `val, `namSz, `head, `stp, `name, `done
    {
      Headed() && (nam.Some? <==> stp != FldInt) && (val.Some? <==> InValue(stp))
    }

    ghost predicate Valid()
      reads `canUpd, `stp, `bsy, `typ, `idx, `hpi, `huf, `hufMagic, `left, `hs, `pos, `buf, `nam, `val, `namSz,
            `done, `head, `str, `name, hp, hp.tbl, buf
    {
      && Core() && Linked() && Inv(S())
      && (InString(stp) ==> hufMagic == huf && (huf ==> Windowed(ts, hs) && hs.blen < 8))
    }

    /** How a method that returned false leaves the decoder: suspended for lack of input, or failed as the machine does. */
    ghost predicate Ended(f: Out)
      reads this, hp, hp.tbl, buf
    {
      if res == BUF then Valid() && blk == [] && (bsy || stp != FldInt) && f == Run(S()) else f == Fail(res, hp.es, hp.evs)
    }

    /** hpack_decoder, with the buffer of the first block. */
    constructor (env: Env, ts: Tables, hp: Hpack, buf: array<byte>)
      requires WfEnv(env) && WfTables(env.code, ts) && hp.Valid() && !hp.mon && hp.tbl != buf
      ensures Valid() && this.env == env && this.ts == ts && this.hp == hp && this.buf == buf
      ensures res == OK && !defunct && stp == FldInt && !bsy && done == [] && hp.State() == old(hp.State())
    {
      this.env, this.ts, this.hp, this.buf := env, ts, hp, buf;
      stp, bsy, idx, typ, hpi, hufMagic, left := FldInt, false, 0, 0, IDLE, false, 0;
      hs := START;
      blk, pos, nam, namSz, val, canUpd, res, defunct := [], 0, None, 0, None, false, OK, false;
      done, head, str, name, huf := [], [], [], [], false;
    }

    /** hpd_skip */
    method Skip(n: nat) returns (ok: bool)
      requires Core() && nam == Some(|done|) && (val.Some? ==> val == Some(|done| + namSz + 1))
      modifies this`pos, this`done, this`nam, this`val, this`res, hp`tooBig, buf
      ensures ok <==> |head| + |str| + n <= buf.Length
      ensures if ok then res == old(res) else res == BIG
      ensures ok ==> Core() && pos + n <= buf.Length && pos == |done| + |head| + |str|
      ensures ok ==> nam == Some(|done|) && val == (if old(val).Some? then Some(|done| + namSz + 1) else None)
      ensures ok ==> if old(pos) + n <= buf.Length then done == old(done) && hp.tooBig == old(hp.tooBig)
                     else done == [] && hp.tooBig
    {
      hide WfEnv; hide WfTables; hide Hpack.Valid; hide Blit;
      assert buf[..pos] == done + (head + str);
      Compacted(buf[..], done, head + str, pos) by { assert buf[..][..pos] == buf[..pos]; }
      if buf.Length - pos >= n { return true; }
      hp.tooBig := true;
      if !(nam != Some(0)) {
        res := BIG;
        return false;
      }
      var fldLen := pos - nam.value;
      if !(buf.Length >= n + fldLen) {
        res := BIG;
        return false;
      }
      ghost var was := buf[..];
      MemMove(buf, 0, nam.value, fldLen);
      assert buf[..fldLen] == buf[..][..fldLen];
      pos := fldLen;
      done := [];
      nam := Some(0);
      if val.Some? { val := Some(namSz + 1); }
      assert [] + head + str == head + str;
      return true;
    }
  
    /** HPD_cat: the octets `s` go to the string under way. HPD_putc is the case of a single octet. */
    method Cat(s: seq<byte>) returns (ok: bool)
      requires Core() && nam == Some(|done|) && (val.Some? ==> val == Some(|done| + namSz + 1))
      modifies this`pos, this`done, this`nam, this`val, this`str, this`res, hp`tooBig, buf
      ensures ok <==> |head| + |old(str)| + |s| <= buf.Length
      ensures if ok then res == old(res) else res == BIG
      ensures ok ==> Core() && str == old(str) + s
      ensures ok ==> nam == Some(|done|) && val == (if old(val).Some? then Some(|done| + namSz + 1) else None)
      ensures ok ==> if |old(done)| + |head| + |old(str)| + |s| <= buf.Length
                     then done == old(done) && hp.tooBig == old(hp.tooBig) else done == [] && hp.tooBig
    {
      hide WfEnv; hide WfTables; hide Hpack.Valid;
      assert pos == |done| + |head| + |str| by { assert |buf[..pos]| == pos; }
      ok := Skip(|s|);
      if !ok { return; }
      ghost var was := buf[..];
      assert buf[..pos] == was[..pos];
      MemCpy(buf, pos, s);
      Written(was, done + head + str, s, pos);
      pos := pos + |s|;
      assert buf[..pos] == buf[..][..pos];
      assert done + head + str + s == done + head + (str + s);
      str := str + s;
    }

    lemma LinkedIs()
      requires Linked() && stp != FldInt
      ensures nam == Some(|done|) && (val.Some? ==> val == Some(|done| + namSz + 1))
      ensures Used(Q()) == |head| + |str| && Q().cap == buf.Length && Q().done == done && Q().str == str && Q().t == hp.State()
    {
    }

    /** What HPD_cat does to the abstract decoder. */
    twostate lemma CatMoved()
      requires unchanged(`canUpd, `stp, `bsy, `typ, `idx, `hpi, `huf, `buf, `name, `head, `namSz, hp`es, hp`sz, hp`evs)
      requires old(Linked()) && stp != FldInt && nam == Some(|done|)
      requires val == (if old(val).Some? then Some(|done| + namSz + 1) else None)
      ensures Q() == old(Q()).(str := str, done := done, t := old(hp.State()).(tooBig := hp.tooBig)) && Linked()
    {
    }

    /** The same, as a step of the abstract decoder. */
    method CatString(s: seq<byte>) returns (ok: bool)
      requires Core() && Linked() && stp != FldInt
      modifies this`pos, this`done, this`nam, this`val, this`str, this`res, hp`tooBig, buf
      ensures Put(old(Q()), s) == if ok then Run(Q()) else Stop(old(Q()), BIG)
      ensures if ok then res == old(res) else res == BIG
      ensures ok ==> Core() && Linked() && str == old(str) + s
    {
      hide Core; hide Put; hide Used; hide InValue; hide Linked; hide Q;
      ghost var q := Q();
      LinkedIs();
      ok := Cat(s);
      if ok {
        CatMoved();
        PutIs(q, Q(), s);
      } else {
        PutFails(q, s);
      }
    }

    /** HPI_decode: an integer, resumed if `bsy`. */
    method HpiDecode(pfx: prefix) returns (ok: bool, v: u16)
      requires bsy || blk != []
      modifies `blk, `bsy, `hpi, `res
      ensures var sc := IntScan(old(bsy), old(hpi), pfx, old(blk));
              match sc.r
              case Done(w) => ok && v == w && blk == sc.rest && !bsy && res == old(res)
              case More(h) => !ok && res == BUF && blk == [] && bsy && hpi == h
              case Overflow => !ok && res == INT
    {
      v := 0;
      if !bsy {
        var m := Mask(pfx);
        var b := blk[0] % Pow2(pfx);
        hpi := Hpi(b, hpi.m);
        blk := blk[1..];
        if b < m { return true, b; }
        hpi := Hpi(m, 0);
        bsy := true;
      }
      ghost var sc := IntScan(true, hpi, pfx, blk);
      var more := true;
      while more
        invariant more ==> sc == IntScan(true, hpi, pfx, blk)
        invariant !more ==> sc == Scan(Done(hpi.v), blk)
        invariant bsy && res == old(res)
        decreases more, |blk|
      {
        if !(|blk| > 0) { res := BUF; return false, 0; }
        var b := blk[0];
        var n := hpi.v;
        if hpi.m <= 16 {
          n := (n + b % 128 * Pow2(hpi.m)) % 0x1_0000;
        } else if !(b % 128 == 0) {
          res := INT;
          return false, 0;
        }
        if !(hpi.v <= n) { res := INT; return false, 0; }
        hpi := Hpi(n, (hpi.m + 7) % 256);
        blk := blk[1..];
        more := b >= 128;
      }
      v := hpi.v;
      bsy := false;
      return true, v;
    }

    lemma CoreFacts()
      requires Core()
      ensures WfEnv(env) && WfCode(env.code) && WfTables(env.code, ts) && |env.stat| == STATIC
      ensures pos == |done| + |head| + |str| <= buf.Length && |buf[..pos]| == pos
      ensures hp.Valid() && hp.Fits() && AllGood(hp.es) && WfSize(hp.sz) && Total(hp.es) <= Limit(hp.sz) && !hp.mon
      ensures Linked() ==> |done| + Used(Q()) <= buf.Length
    {
      hide WfCode; hide WfTables; hide AllGood;
      assert |buf[..pos]| == pos;
    }

    /** The loop of hph_decode_lookup: `p` is what is to be read, `out` what was written of it since the state `q`. */
    ghost predicate Looking(q: Dec, p: Parsed, out: seq<byte>)
      reads this, hp, hp.tbl, buf
    {
      && Core() && Linked() && stp != FldInt
      && Windowed(ts, hs) && hs.dec.Some? && Shaped(ts, hs.dec.value)
      && p == Prepend(out, Parse(env.code, Pend(ts, hs)))
      && Put(q, out) == Run(Q())
    }

    /** No code is complete. */
    ghost predicate Stuck()
      reads `hs
      requires Windowed(ts, hs)
    {
      hs.blen < 8 && Parse(env.code, Pend(ts, hs)) == Parsed([], Pend(ts, hs), false)
    }

    lemma LookupStart()
      requires Core() && Linked() && stp != FldInt && Windowed(ts, hs) && hs.dec.Some?
      ensures Looking(Q(), Parse(env.code, Pend(ts, hs)), []) && Shaped(ts, hs.dec.value)
    {
      CoreFacts();
      hide Core; hide WfCode; hide Parse; hide Put; hide Windowed; hide Pend;
      PutNothing(Q());
      PrependTwice([], [], Parse(env.code, Pend(ts, hs)));
      TooShort(env.code, ts, hs);
    }

    lemma LookupEnd(q: Dec, p: Parsed, out: seq<byte>)
      requires Looking(q, p, out) && (Stuck() || hs.blen < ts.tabs[hs.dec.value].oct[0].len)
      ensures !p.eos && Put(q, p.out) == Run(Q()) && Core() && Linked() && Windowed(ts, hs) && hs.dec.Some? && hs.blen < 8
      ensures Pend(ts, hs) == p.rest
    {
      CoreFacts();
      TooShort(env.code, ts, hs);
      assert out + [] == out;
    }

    /** The body of the loop. */
    method LookupStep(eos: bool, ghost q: Dec, ghost p: Parsed, ghost out: seq<byte>)
      returns (step: Look, eos': bool, ghost out': seq<byte>)
      requires Looking(q, p, out)
      modifies `pos, `done, `nam, `val, `str, `res, `hs, hp`tooBig, buf
      ensures hp.es == old(hp.es) && hp.evs == old(hp.evs) && hp.sz == old(hp.sz)
      ensures match step
              case Taken(_, s) =>
                && Looking(q, p, out') && Shaped(ts, hs.dec.value) && res == old(res) && hs.blen < old(hs.blen)
                && (eos' <==> Path(ts, hs) != [])
              case Wait => Looking(q, p, out') && res == old(res) && hs == old(hs) && eos' == eos && Stuck()
              case Premature => (res == HUF && p.eos && Put(q, p.out).Run?) || (res == BIG && Put(q, p.out).Fail?)
    {
      hide Core; hide Linked; hide Look1; hide Q; hide WfCode; hide WfTables; hide Parse; hide Put; hide Windowed; hide Pend;
      hide Path; hide Prepend; hide Headed; hide Pow2;
      CoreFacts();
      ReadsEntry(env.code, ts, hs, p, out);
      step, eos', out' := Look1(ts, hs), eos, out;
      match step {
        case Premature =>
          PutAll(q, out, [], p.out);
          assert out + [] == out;
          res := HUF;
        case Wait =>
        case Taken(h, s) =>
          PutAll(q, out, s, p.out);
          eos' := s == [];
          out' := out + s;
          hs := h;
          if s == [] {
            assert out' == out;
          } else {
            var ok := CatString(s);
            if !ok { return Premature, eos', out'; }
          }
      }
    }

    /** hph_decode_lookup: all the symbols and links that the window holds. */
    method DecodeLookup(eos: bool) returns (ok: bool, eos': bool)
      requires Core() && Linked() && stp != FldInt && Windowed(ts, hs) && hs.dec.Some? && 8 <= hs.blen
      modifies `pos, `done, `nam, `val, `str, `res, `hs, hp`tooBig, buf
      ensures var p := Parse(env.code, Pend(ts, old(hs)));
              var o := Put(old(Q()), p.out);
              if ok then
                && !p.eos && o == Run(Q()) && res == old(res)
                && Core() && Linked() && Windowed(ts, hs) && hs.dec.Some? && hs.blen < 8
                && Pend(ts, hs) == p.rest && (eos' <==> Path(ts, hs) != [])
              else (res == BIG && o.Fail?) || (res == HUF && p.eos && o.Run?)
      ensures hp.es == old(hp.es) && hp.evs == old(hp.evs) && hp.sz == old(hp.sz)
    {
      ghost var p, q, out := Parse(env.code, Pend(ts, hs)), Q(), [];
      LookupStart();
      hide Looking; hide Core; hide Linked; hide Windowed; hide Pend; hide Path; hide Parse; hide Put; hide Stuck; hide Q;
      eos' := eos;
      var go := true;
      while go && hs.blen >= ts.tabs[hs.dec.value].oct[0].len
        invariant Looking(q, p, out) && hs.dec.Some? && Windowed(ts, hs) && Shaped(ts, hs.dec.value) && res == old(res)
        invariant hs.blen == old(hs.blen) || (eos' <==> Path(ts, hs) != [])
        invariant go || Stuck()
        invariant hp.es == old(hp.es) && hp.evs == old(hp.evs) && hp.sz == old(hp.sz)
        decreases go, hs.blen
      {
        var step;
        step, eos', out := LookupStep(eos', q, p, out);
        if step == Premature { return false, eos'; }
        go := step != Wait;
      }
      LookupEnd(q, p, out);
      return true, eos';
    }
  
    /** The NUL after a string. */
    method Terminate(ghost f: Out, ghost rest: seq<byte>) returns (ok: bool, ghost s: seq<byte>)
      requires Core() && Linked() && InString(stp) && f == FeedAll(env, StringEnd(Q()), rest)
      modifies `pos, `done, `nam, `val, `str, `res, hp`tooBig, buf
      ensures ok ==> Core() && Linked() && str == s + [0] && f == FeedAll(env, StringDone(Q().(str := s)), rest)
      ensures if ok then res == old(res) && s == old(str) else res == BIG && f == Fail(BIG, hp.es, hp.evs)
      ensures hp.es == old(hp.es) && hp.evs == old(hp.evs) && hp.sz == old(hp.sz)
    {
      hide Core; hide Linked; hide StringDone; hide StringEnd; hide Put; hide Pend; hide Windowed;
      EndIs(Q());
      s := str;
      ghost var q := Q();
      ok := CatString([0]);
    }

    /** A Huffman string under way. */
    ghost predicate InHuffman()
      reads this, hp, hp.tbl, buf
    {
      Core() && Linked() && InString(stp) && huf && hufMagic && Windowed(ts, hs) && hs.blen < 8
    }

    /** Something was decoded, or bits are left that are no padding. */
    ghost predicate LongEnough()
      reads `hs, `str
    {
      Windowed(ts, hs) && (str != [] || |Pend(ts, hs)| >= 8)
    }

    /** One octet of a Huffman string: the body of the loop of HPH_decode. */
    method HuffmanOctet(eos: bool, ghost f: Out) returns (ok: bool, eos': bool)
      requires Windowed(ts, hs) && InHuffman() && hs.dec.Some? && left > 0 && blk != [] && Inv(S()) && f == FeedAll(env, Run(S()), blk)
      modifies `pos, `done, `nam, `val, `str, `res, `hs, `left, `blk, hp`tooBig, buf
      ensures ok ==> InHuffman() && hs.dec.Some? && left == old(left) - 1 && |blk| == |old(blk)| - 1 && res == old(res)
      ensures ok ==> f == FeedAll(env, Finish(S()), blk) && (left > 0 ==> Inv(S())) && (eos' <==> Path(ts, hs) != [])
      ensures ok ==> LongEnough()
      ensures !ok ==> res != BUF && f == Fail(res, hp.es, hp.evs)
      ensures hp.es == old(hp.es) && hp.evs == old(hp.evs) && hp.sz == old(hp.sz)
    {
      hide Core; hide Linked; hide Parse; hide Put; hide Windowed; hide Pend; hide Path; hide Finish; hide Inv; hide WfEnv; hide Of;
      hide Or; hide Pow2; hide FeedAll; hide WfTables; hide WfCode;
      CoreFacts();
      HufOctetIs(env, S(), blk);
      FeedNothing(env);
      var b := blk[0];
      LoadWindow(ts, hs, b);
      hs := Load(hs, b);
      left := left - 1;
      blk := blk[1..];
      ok, eos' := DecodeLookup(eos);
    }

    /** The loop of HPH_decode: `f` is what the string gives, `eos` whether a code is begun. */
    method HuffmanOctets(ghost f: Out) returns (ok: bool, eos: bool)
      requires InHuffman() && hs.dec.Some? && f == FeedAll(env, Finish(S()), blk) && (left > 0 ==> Inv(S()))
      requires left == 0 ==> Path(ts, hs) == []
      modifies `pos, `done, `nam, `val, `str, `res, `hs, `left, `blk, hp`tooBig, buf
      ensures ok ==> InHuffman() && hs.dec.Some? && res == old(res) && left == 0 && |blk| == |old(blk)| - old(left)
      ensures ok ==> f == FeedAll(env, Finish(S()), blk) && (eos <==> Path(ts, hs) != [])
      ensures ok ==> old(left) == 0 || LongEnough()
      ensures !ok ==> Ended(f)
      ensures hp.es == old(hp.es) && hp.evs == old(hp.evs) && hp.sz == old(hp.sz)
    {
      hide Core; hide Linked; hide Finish; hide Inv; hide Windowed; hide Pend; hide Path; hide FeedAll; hide Q;
      eos := false;
      while left > 0
        invariant InHuffman() && hs.dec.Some? && res == old(res)
        invariant f == FeedAll(env, Finish(S()), blk) && (left > 0 ==> Inv(S()))
        invariant |blk| - left == |old(blk)| - old(left) && left <= old(left)
        invariant left == old(left) || LongEnough()
        invariant left < old(left) || left == 0 ==> (eos <==> Path(ts, hs) != [])
        invariant hp.es == old(hp.es) && hp.evs == old(hp.evs) && hp.sz == old(hp.sz)
        decreases left
      {
        FinishMore(S());
        FeedNothing(env);
        if !(|blk| > 0) { res := BUF; return false, eos; }
        ok, eos := HuffmanOctet(eos, f);
        if !ok { return false, eos; }
      }
      ok := true;
    }

    /** The end of HPH_decode: the padding and the NUL. */
    method HuffmanEnd(eos: bool, ghost f: Out) returns (ok: bool, ghost s: seq<byte>)
      requires Windowed(ts, hs) && InHuffman() && hs.dec.Some? && left == 0 && (eos <==> Path(ts, hs) != []) && f == FeedAll(env, Finish(S()), blk)
      modifies `pos, `done, `nam, `val, `str, `res, hp`tooBig, buf
      ensures ok ==> Core() && Linked() && str == s + [0] && f == FeedAll(env, StringDone(Q().(str := s)), blk)
      ensures ok ==> res == old(res) && s == old(str) && (old(LongEnough()) ==> s != [])
      ensures !ok ==> res != BUF && f == Fail(res, hp.es, hp.evs)
      ensures hp.es == old(hp.es) && hp.evs == old(hp.evs) && hp.sz == old(hp.sz)
    {
      hide Core; hide Linked; hide Finish; hide Windowed; hide Pend; hide Path; hide StringEnd; hide StringDone; hide Pow2;
      hide FeedAll;
      hide WfEnv; hide WfTables; hide WfCode;
      s := str;
      FeedNothing(env);
      FinishMore(S());
      CoreFacts();
      PaddingTest(env.code, ts, hs);
      EndSame(S());
      if !(!eos) {
        res := HUF;
        return false, s;
      }
      if hs.blen > 0 {
        if !(hs.bits == 0xffff * Pow2(16 - hs.blen) % 0x1_0000) {
          res := HUF;
          return false, s;
        }
      }
      ok, s := Terminate(f, blk);
    }

    /** HPH_decode */
    method HphDecode(ghost f: Out) returns (ok: bool, ghost s: seq<byte>)
      requires InHuffman() && f == FeedAll(env, Finish(S()), blk)
      requires if left > 0 then Inv(S()) else hs.dec.None? && stp == ValStr
      modifies `pos, `done, `nam, `val, `str, `res, `hs, `left, `blk, hp`tooBig, buf
      ensures ok ==> Core() && Linked() && str == s + [0] && f == FeedAll(env, StringDone(Q().(str := s)), blk)
      ensures ok ==> res == old(res) && (stp == NamStr ==> s != []) && |blk| <= |old(blk)| && (old(left) > 0 ==> |blk| < |old(blk)|)
      ensures !ok ==> Ended(f)
      ensures hp.es == old(hp.es) && hp.evs == old(hp.evs) && hp.sz == old(hp.sz)
    {
      hide Q; hide NameReady; hide ValueReady; hide Headed; hide InValue;
      hide Core; hide Linked; hide Finish; hide Inv; hide Windowed; hide Pend; hide Path; hide StringDone; hide FeedAll;
      hide WfTables;
      hide WfCode;
      if hs.dec.None? {
        CoreFacts();
        FirstTable(env.code, ts, hs);
        hs := hs.(dec := Some(0));
      }
      var eos;
      ok, eos := HuffmanOctets(f);
      s := [];
      if ok { ok, s := HuffmanEnd(eos, f); }
    }
  
    /** The abstract decoder in a raw string. */
    lemma RawState()
      requires InString(stp) && !huf
      ensures S() == Q().(left := left) && Q() == S().(left := 0)
      ensures Q().stp == stp && !Q().huf && Q().pend == [] && Q().t == hp.State() && Q().str == str && Q().done == done
    {
    }

    lemma RawRoom()
      requires Core() && Linked() && InString(stp) && !huf
      ensures |S().done| + Used(S()) <= S().cap && S().pend == [] && S().left == left && S().stp == stp && !S().huf
    {
      CoreFacts();
      hide Core;
    }

    /** hpack_decode_raw_string, when the chunk does not hold the whole string: all of it is copied. */
    method RawPartly(ghost f: Out) returns (ok: bool)
      requires Core() && Linked() && InString(stp) && !huf && f == FeedAll(env, Finish(S()), blk)
      requires |blk| < left && Inv(S()) && blk != []
      modifies `pos, `done, `nam, `val, `str, `res, `left, hp`tooBig, buf
      ensures ok ==> Core() && Linked() && left == old(left) - |blk| && f == Run(S()) && Inv(S())
      ensures if ok then res == old(res) else res == BIG && f == Fail(BIG, hp.es, hp.evs)
      ensures hp.es == old(hp.es) && hp.evs == old(hp.evs) && hp.sz == old(hp.sz)
    {
      hide Core; hide Linked; hide Put; hide Finish; hide Inv; hide FeedAll; hide S; hide Q; hide Used;
      RawState();
      RawPart(env, S(), blk);
      ok := CatString(blk);
      if !ok { return; }
      left := left - |blk|;
      RawState();
    }

    method RawMore(ghost f: Out)
      requires Core() && Linked() && InString(stp) && !huf && !hufMagic && f == FeedAll(env, Finish(S()), blk)
      requires |blk| < left && Inv(S()) && blk != []
      modifies `pos, `done, `nam, `val, `str, `res, `left, `blk, hp`tooBig, buf
      ensures Ended(f)
      ensures hp.es == old(hp.es) && hp.evs == old(hp.evs) && hp.sz == old(hp.sz)
    {
      hide Core; hide Linked; hide Finish; hide Inv; hide FeedAll; hide S; hide Q;
      var ok := RawPartly(f);
      if !ok { return; }
      blk := [];
      res := BUF;
    }

    /** ...and when it does: the octets of the string... */
    method RawCopy(ghost f: Out, ghost rest: seq<byte>) returns (ok: bool)
      requires Core() && Linked() && InString(stp) && !huf && f == FeedAll(env, Finish(S()), blk) && left <= |blk|
      requires rest == blk[left..]
      modifies `pos, `done, `nam, `val, `str, `res, hp`tooBig, buf
      ensures ok ==> Core() && Linked() && str == old(str) + blk[..left] && f == FeedAll(env, StringEnd(Q()), rest)
      ensures if ok then res == old(res) else res == BIG && f == Fail(BIG, hp.es, hp.evs)
      ensures hp.es == old(hp.es) && hp.evs == old(hp.evs) && hp.sz == old(hp.sz)
    {
      hide Hpack.Fits; hide Hpack.Valid; hide WfEnv; hide AllGood; hide WfTables; hide InValue; hide StringDone; hide Padding;
      hide WfSize;
      RawRoom();
      RawState();
      hide Core; hide Linked; hide Put; hide Finish; hide StringEnd; hide FeedAll; hide S; hide Q; hide Used;
      ghost var t := blk[..left];
      assert t + rest == blk;
      RawWhole(env, S(), t, rest);
      FeedNothing(env);
      ok := CatString(blk[..left]);
    }

    /** ...and its NUL. */
    method RawAll(ghost f: Out) returns (ok: bool, ghost s: seq<byte>)
      requires Core() && Linked() && InString(stp) && !huf && f == FeedAll(env, Finish(S()), blk) && left <= |blk|
      modifies `pos, `done, `nam, `val, `str, `res, `left, `blk, hp`tooBig, buf
      ensures ok ==> Core() && Linked() && str == s + [0] && f == FeedAll(env, StringDone(Q().(str := s)), blk)
      ensures ok ==> res == old(res) && s == old(str) + old(blk[..left]) && blk == old(blk[left..])
      ensures !ok ==> res != BUF && f == Fail(res, hp.es, hp.evs)
      ensures hp.es == old(hp.es) && hp.evs == old(hp.evs) && hp.sz == old(hp.sz)
    {
      hide Core; hide Linked; hide Finish; hide StringEnd; hide StringDone; hide FeedAll; hide S; hide Q;
      s := [];
      ok := RawCopy(f, blk[left..]);
      if !ok { return; }
      ok, s := Terminate(f, blk[left..]);
      if !ok { return; }
      blk := blk[left..];
      left := 0;
    }

    /** hpack_decode_raw_string */
    method RawString(ghost f: Out) returns (ok: bool, ghost s: seq<byte>)
      requires Core() && Linked() && InString(stp) && !huf && !hufMagic && f == FeedAll(env, Finish(S()), blk)
      requires if left > 0 then Inv(S()) && blk != [] else stp == ValStr
      modifies `pos, `done, `nam, `val, `str, `res, `left, `blk, hp`tooBig, buf
      ensures ok ==> Core() && Linked() && str == s + [0] && f == FeedAll(env, StringDone(Q().(str := s)), blk)
      ensures ok ==> res == old(res) && (stp == NamStr ==> s != []) && |blk| <= |old(blk)| && (old(left) > 0 ==> |blk| < |old(blk)|)
      ensures !ok ==> Ended(f)
      ensures hp.es == old(hp.es) && hp.evs == old(hp.evs) && hp.sz == old(hp.sz)
    {
      hide Core; hide Linked; hide Finish; hide Inv; hide StringDone; hide FeedAll; hide Valid; hide S; hide Q;
      if left <= |blk| {
        ok, s := RawAll(f);
      } else {
        RawMore(f);
        return false, [];
      }
    }
  
    /** The H bit is read again from the first octet of each chunk that resumes the length of a string. */
    ghost predicate Rehuffed()
      reads `bsy, `stp, `blk, `huf
    {
      bsy && stp != FldInt && blk != [] ==> huf == (blk[0] >= 0x80)
    }

    /** The abstract decoder past some octets of a length. */
    twostate lemma LengthMoved()
      requires (stp == NamLen || stp == ValLen) && unchanged(`stp, `canUpd, `typ, `idx, `done, `buf, `name, `str, hp)
      ensures S() == old(S()).(huf := huf, bsy := bsy, hpi := if bsy then hpi else IDLE)
      ensures S().stp == stp && S().bsy == bsy && (bsy ==> S().hpi == hpi) && S().t == hp.State()
    {
    }

    lemma ValidLinked()
      requires Valid()
      ensures Core() && Linked() && Inv(S())
    {
    }

    /** More octets are awaited. */
    lemma Suspended()
      requires Core() && Linked() && Inv(S()) && (InString(stp) ==> hufMagic == huf && (huf ==> Windowed(ts, hs) && hs.blen < 8))
      ensures Valid()
    {
    }

    /** HPI_decode of a string length, and its H bit. */
    method ReadLength() returns (ok: bool, len: u16)
      requires Valid() && (stp == NamLen || stp == ValLen) && blk != [] && Rehuffed()
      modifies `bsy, `hpi, `huf, `blk, `res
      ensures var sc := IntScan(old(bsy), old(hpi), 7, old(blk));
              && (sc.r.Overflow? || S() == LengthAt(old(S()), old(blk[0]) >= 0x80, sc.r))
              && match sc.r
                 case Done(v) => ok && len == v && blk == sc.rest && !bsy && res == old(res)
                 case More(_) => !ok && res == BUF && blk == [] && bsy
                 case Overflow => !ok && res == INT
      ensures huf == (old(blk[0]) >= 0x80)
    {
      hide Valid; hide S; hide IntScan;
      huf := blk[0] >= 0x80;
      ok, len := HpiDecode(7);
      LengthMoved();
    }

    /** The integer of a string length. */
    method LengthInt(ghost f: Out) returns (ok: bool, len: u16)
      requires Valid() && (stp == NamLen || stp == ValLen) && blk != [] && Rehuffed() && f == FeedAll(env, Run(S()), blk)
      modifies `bsy, `hpi, `huf, `blk, `res
      ensures ok ==> Valid() && !bsy && res == old(res) && huf == (old(blk[0]) >= 0x80) && |blk| < |old(blk)|
      ensures ok ==> f == FeedAll(env, StringBegin(S(), len), blk)
      ensures !ok ==> Ended(f)
    {
      hide Core; hide Linked; hide StringBegin; hide FeedAll; hide Inv; hide IntScan; hide S; hide Valid; hide LengthAt;
      FeedNothing(env);
      ValidLinked();
      LengthMoved();
      LengthReads(env, S(), blk, hpi);
      ok, len := ReadLength();
      if ok || res == BUF { Suspended(); }
    }

    /** Set up the decoding of a string of `len` octets. */
    method SetString(h: bool, len: nat)
      requires Linked() && (stp == NamLen || stp == ValLen) && !bsy && h == huf
      modifies `stp, `hufMagic, `left, `hs
      ensures Linked() && stp == (if old(stp) == NamLen then NamStr else ValStr)
      ensures hufMagic == huf && left == len && (huf ==> Windowed(ts, hs) && hs == START)
      ensures S() == Begun(old(S()), len)
    {
      hide Headed; hide Windowed; hide Pend;
      StartWindowed(ts);
      hufMagic := h;
      left := len;
      stp := if stp == NamLen then NamStr else ValStr;
      if h { hs := START; }
    }

    /** The length of a string is known. */
    method StringSetup(h: bool, len: u16, ghost f: Out) returns (ok: bool)
      requires Valid() && (stp == NamLen || stp == ValLen) && !bsy && h == huf && f == FeedAll(env, StringBegin(S(), len), blk)
      modifies `stp, `hufMagic, `left, `hs, `res
      ensures ok ==> InBody(f) && stp == (if old(stp) == NamLen then NamStr else ValStr) && !bsy && res == old(res)
      ensures !ok ==> Ended(f)
    {
      hide Core; hide Finish; hide FeedAll; hide Inv; hide Windowed; hide Pend; hide StringBegin; hide StringEnd; hide Linked;
      hide S; hide Q; hide Begun; hide Valid; hide Used; hide Padding;
      ValidLinked();
      StateOf();
      FeedNothing(env);
      ghost var d := S();
      BeginIs(d, len);
      if len > 0 { BeginInv(d, len); }
      SetString(h, len);
      if stp == NamStr && !(len > 0) {
        res := LEN;
        return false;
      }
      if len > 0 {
        if !(|blk| > 0) {
          res := BUF;
          Suspended();
          return false;
        }
      }
      ok := true;
    }

    /** The length of a string: the first half of hpack_decode_string. */
    method StringLength(ghost f: Out) returns (ok: bool)
      requires Valid() && (stp == NamLen || stp == ValLen) && blk != [] && Rehuffed() && f == FeedAll(env, Run(S()), blk)
      modifies `stp, `bsy, `hpi, `hufMagic, `huf, `left, `hs, `blk, `res
      ensures ok ==> InBody(f) && stp == (if old(stp) == NamLen then NamStr else ValStr) && !bsy && res == old(res)
      ensures ok ==> |blk| < |old(blk)|
      ensures !ok ==> Ended(f)
    {
      hide Valid; hide S; hide FeedAll; hide InBody; hide Ended; hide Rehuffed; hide StringBegin;
      var h := blk[0] >= 0x80;
      var len;
      ok, len := LengthInt(f);
      if ok { ok := StringSetup(h, len, f); }
    }

    /** The octets of a string are expected. */
    ghost predicate InBody(f: Out)
      reads this, hp, hp.tbl, buf
    {
      && Core() && Linked() && InString(stp) && !bsy && hufMagic == huf
      && (huf ==> Windowed(ts, hs) && hs.blen < 8 && (left > 0 || hs.dec.None?))
      && f == FeedAll(env, Finish(S()), blk) && (if left > 0 then Inv(S()) && blk != [] else stp == ValStr)
    }

    lemma BodyResumed(f: Out)
      requires Valid() && InString(stp) && blk != [] && f == FeedAll(env, Run(S()), blk)
      ensures InBody(f) && left > 0 && !bsy
    {
      hide Core; hide FeedAll; hide Linked; hide Windowed; hide Pend;
      FinishMore(S());
      hide Finish;
    }

    /** The second half of hpack_decode_string. */
    method StringBody(ghost f: Out) returns (ok: bool, ghost s: seq<byte>)
      requires InBody(f)
      modifies `hs, `left, `blk, `res, `pos, `done, `nam, `val, `str, hp`tooBig, buf
      ensures ok ==> Core() && Linked() && res == old(res) && str == s + [0] && f == FeedAll(env, StringDone(Q().(str := s)), blk)
      ensures ok ==> (stp == NamStr ==> s != []) && |blk| <= |old(blk)| && (old(left) > 0 ==> |blk| < |old(blk)|)
      ensures !ok ==> Ended(f)
      ensures hp.es == old(hp.es) && hp.evs == old(hp.evs) && hp.sz == old(hp.sz)
    {
      hide Core; hide Finish; hide FeedAll; hide StringDone; hide Linked; hide Inv; hide Windowed; hide S; hide Q; hide Ended;
      if hufMagic {
        ok, s := HphDecode(f);
      } else {
        ok, s := RawString(f);
      }
    }

    /** hpack_decode_string */
    method DecodeString(ghost f: Out) returns (ok: bool, ghost s: seq<byte>)
      requires Valid() && stp != FldInt && Rehuffed() && f == FeedAll(env, Run(S()), blk)
      modifies `stp, `bsy, `hpi, `hufMagic, `huf, `left, `hs, `blk, `res, `pos, `done, `nam, `val, `str, hp`tooBig, buf
      ensures ok ==> Core() && Linked() && stp == (if InName(old(stp)) then NamStr else ValStr) && !bsy && res == old(res)
      ensures ok ==> str == s + [0] && f == FeedAll(env, StringDone(Q().(str := s)), blk) && (stp == NamStr ==> s != [])
      ensures ok ==> |blk| < |old(blk)|
      ensures !ok ==> Ended(f)
      ensures hp.es == old(hp.es) && hp.evs == old(hp.evs) && hp.sz == old(hp.sz)
    {
      hide Valid; hide Core; hide FeedAll; hide StringDone; hide Linked; hide S; hide Q; hide InBody; hide Rehuffed;
      s := [];
      if !(|blk| > 0) {
        FeedNothing(env);
        res := BUF;
        return false, s;
      }
      if stp == NamLen || stp == ValLen {
        ok := StringLength(f);
        if !ok { return; }
      } else {
        BodyResumed(f);
      }
      ok, s := StringBody(f);
    }
  
    /** HPT_decode_name */
    method DecodeName(ghost f: Out) returns (ok: bool, ghost s: seq<byte>)
      requires Core() && Linked() && stp == NamLen && str == [] && idx != 0
      requires f == FeedAll(env, IndexedName(env, Q()), blk)
      modifies `pos, `done, `nam, `val, `str, `res, `namSz, hp`tooBig, buf
      ensures ok ==> Core() && Linked() && str == s + [0] && s != [] && f == FeedAll(env, NameReady(Q(), s), blk)
      ensures ok ==> namSz == |s| && res == old(res)
      ensures !ok ==> res != BUF && f == Fail(res, hp.es, hp.evs)
      ensures hp.es == old(hp.es) && hp.evs == old(hp.evs) && hp.sz == old(hp.sz)
    {
      hide Core; hide NameReady; hide IndexedName; hide Put; hide FeedAll; hide Lookup; hide WfEnv; hide Hpack.Valid;
      hide Hpack.Fits;
      FeedNothing(env);
      CoreFacts();
      s := [];
      IndexedNameIs(env, Q());
      LookupGood(env, hp.es, idx);
      var hf, at := hp.Field(env.stat, idx);
      if hf.None? {
        res := IDX;
        return false, s;
      }
      s := hf.value.nam;
      namSz := |hf.value.nam|;
      ok := CatString(hf.value.nam + [0]);
    }

    /** The string that was just written, without its NUL. */
    lemma LastString(from: nat, s: seq<byte>)
      requires Core() && str == s + [0] && from == |done| + |head|
      ensures from + |s| < pos && buf[from..from + |s|] == s
    {
      CoreFacts();
      hide WfEnv; hide WfTables; hide Hpack.Valid;
      var t, b := buf[..pos], done + head;
      assert t == b + (s + [0]);
      assert buf[from..from + |s|] == t[from..from + |s|];
      assert t[|b|..] == s + [0];
      DropTake(t, |b|, |s|);
    }

    lemma NameString()
      requires Core() && Headed() && nam.Some? && val.Some?
      ensures nam.value + namSz < pos && buf[nam.value..nam.value + namSz] == name
    {
      CoreFacts();
      hide WfEnv; hide WfTables; hide Hpack.Valid;
      var t, n := buf[..pos], |done|;
      assert t == done + name + ([0] + str);
      Middle(done, name, [0] + str);
      assert |t| == n + |name| + 1 + |str|;
      SubSlice(buf[..], 0, pos, n, n + |name|);
      assert buf[..][0..pos] == t;
    }

    lemma LinkedFacts()
      requires Core() && Linked()
      ensures AllGood(Q().t.es) && WfSize(Q().t.sz) && Total(Q().t.es) <= Limit(Q().t.sz) && |done| + Used(Q()) <= Q().cap
      ensures Q().left == 0 && Q().pend == [] && pos == |done| + |head| + |str| <= buf.Length
    {
      CoreFacts();
      hide Core; hide Linked;
    }

    /** The name and its NUL are what comes before the value. */
    method TurnToLength(ghost s: seq<byte>)
      requires Core() && Linked() && InName(stp) && Steady(Q()) && str == s + [0] && s != [] && namSz == |s| && Token(s) == OK
      modifies `val, `name, `head, `str, `stp
      ensures Valid() && stp == ValLen && S() == old(Q()).(stp := ValLen, nam := s, str := [])
    {
      hide Token; hide WfEnv; hide Hpack.Valid; hide WfTables; hide AllGood; hide Inv; hide Windowed; hide Pend; hide WfSize;
      hide Total; hide Limit; hide Used; hide Hpack.Fits;
      LinkedFacts();
      NamedInv(Q(), s);
      val := Some(pos);
      name := s;
      head := str;
      str := [];
      stp := ValLen;
      assert done + head + str == done + [] + (s + [0]);
    }

    /** The name and its NUL were decoded: validate it, and turn to the value. */
    method TakeName(ghost f: Out, ghost s: seq<byte>) returns (ok: bool)
      requires Core() && Linked() && InName(stp) && Steady(Q()) && str == s + [0] && s != [] && namSz == |s|
      requires f == FeedAll(env, NameReady(Q(), s), blk)
      modifies `val, `name, `head, `str, `stp, `res
      ensures ok ==> Valid() && stp == ValLen && f == FeedAll(env, Run(S()), blk) && !bsy && res == old(res)
      ensures !ok ==> res != BUF && f == Fail(res, hp.es, hp.evs)
    {
      hide ValueReady; hide Report; hide AllGood; hide Inv; hide Hpack.Valid; hide Hpack.Fits;
      assert !bsy && nam == Some(|done|) && head == [] && Q().t == hp.State();
      LastString(nam.value, s);
      CoreFacts();
      FeedNothing(env);
      hide Token; hide FeedAll; hide Core; hide Linked; hide Steady; hide S; hide Q; hide Valid;
      var t := HpvToken(buf[nam.value..nam.value + namSz]);
      if t != OK {
        res := t;
        return false;
      }
      TurnToLength(s);
      return true;
    }
  
    /** A value is expected. */
    ghost predicate AtValue(f: Out)
      reads this, hp, hp.tbl, buf
    {
      Valid() && InValue(stp) && f == FeedAll(env, Run(S()), blk)
    }

    /** A name that is not in a table. */
    method NewName(ghost f: Out) returns (ok: bool, ghost s: seq<byte>)
      requires Valid() && Rehuffed() && InName(stp) && f == FeedAll(env, Run(S()), blk)
      modifies `stp, `bsy, `hpi, `hufMagic, `huf, `left, `hs, `blk, `res, `pos, `done, `nam, `namSz, `val, `str, hp`tooBig, buf
      ensures ok ==> Core() && Linked() && InName(stp) && Steady(Q()) && str == s + [0] && s != [] && namSz == |s| && res == old(res)
      ensures ok ==> f == FeedAll(env, NameReady(Q(), s), blk) && |blk| <= |old(blk)|
      ensures !ok ==> Ended(f)
      ensures hp.es == old(hp.es) && hp.evs == old(hp.evs) && hp.sz == old(hp.sz)
    {
      hide Hpack.Fits; hide WfCode; hide Used; hide Windowed; hide WfEnv; hide WfSize; hide WfTables; hide Hpack.Valid;
      hide InValue;
      hide Core; hide FeedAll; hide Inv; hide NameReady; hide StringDone; hide Ended; hide Rehuffed;
      InvSteady(S());
      ok, s := DecodeString(f);
      if !ok { return; }
      NameDone(Q(), s);
      CoreFacts();
      namSz := pos - nam.value - 1;
    }

    /** The name of a field: the first half of hpack_decode_field. */
    method NamePart(ghost f: Out) returns (ok: bool)
      requires Core() && Linked() && InName(stp) && (idx != 0 ==> stp == NamLen && Steady(Q()) && str == [])
      requires idx == 0 ==> Valid() && Rehuffed()
      requires f == FeedAll(env, if idx == 0 then Run(S()) else IndexedName(env, Q()), blk)
      modifies `stp, `bsy, `hpi, `hufMagic, `huf, `left, `hs, `blk, `res, `pos, `done, `nam, `namSz, `val, `name, `head, `str, hp`tooBig, buf
      ensures ok ==> AtValue(f) && stp == ValLen && !bsy && res == old(res) && |blk| <= |old(blk)|
      ensures !ok ==> Ended(f)
      ensures hp.es == old(hp.es) && hp.evs == old(hp.evs) && hp.sz == old(hp.sz)
    {
      hide Core; hide FeedAll; hide IndexedName; hide Inv; hide NameReady; hide Rehuffed; hide Linked;
      ghost var s;
      if idx == 0 {
        ok, s := NewName(f);
        if !ok { return; }
      } else {
        ok, s := DecodeName(f);
        if !ok { return; }
      }
      ok := TakeName(f, s);
    }
  
    /** The abstract decoder once `ctx->fld` is cleared. */
    ghost function Cleared(): Dec
      reads `canUpd, `stp, `bsy, `typ, `idx, `hpi, `huf, `done, `buf, `name, `head, `str, hp`es, hp`sz, hp`evs, hp`tooBig
    {
      Q().(done := done + head + str, nam := [], str := [])
    }

    /** A whole field is in the buffer and was reported. */
    ghost predicate FieldOver()
      reads this, hp, hp.tbl, buf
    {
      Core() && Inv(Cleared()) && stp == FldInt && !bsy
    }

    /** What the report of a field does to the abstract decoder. */
    twostate lemma Reported(s: seq<byte>)
      requires unchanged(`canUpd, `bsy, `typ, `idx, `hpi, `huf, `done, `buf, `name, `head, `str) && stp == FldInt
      requires head == name + [0] && str == s + [0]
      requires hp.State() == Note(Note(old(hp.State()), NameEvt(name)), ValueEvt(s))
      ensures Cleared() == Over(old(Q()), s)
    {
      OverIs(old(Q()), s);
      hide Over; hide Note;
    }

    /** HPD_notify, and the end of hpack_decode_field. */
    method ReportField(ghost s: seq<byte>)
      requires Core() && Headed() && nam.Some? && val.Some? && str == s + [0]
      modifies `stp, hp`evs
      ensures Cleared() == Over(old(Q()), s) && stp == FldInt
      ensures hp.es == old(hp.es) && hp.sz == old(hp.sz)
    {
      hide Over; hide Note; hide Q; hide Cleared; hide Headed; hide Inv; hide Hpack.Valid; hide WfEnv; hide WfTables;
      NameString();
      HeadedIs();
      LastString(val.value, s);
      CoreFacts();
      hide Core;
      hp.Notify(NameEvt(buf[nam.value..nam.value + namSz]));
      hp.Notify(ValueEvt(buf[val.value..pos - 1]));
      stp := FldInt;
      Reported(s);
    }

    lemma HeadedIs()
      requires Core() && Headed() && nam.Some? && val.Some?
      ensures head == name + [0] && val.value == |done| + |head|
    {
      hide Core;
    }

    /** The value and its NUL were decoded: validate it, and report the field. */
    method TakeValue(ghost f: Out, ghost s: seq<byte>) returns (ok: bool)
      requires Core() && Linked() && stp == ValStr && Steady(Q()) && str == s + [0] && name != [] && Token(name) == OK
      requires f == FeedAll(env, StringDone(Q().(str := s)), blk)
      modifies `stp, `res, hp`evs
      ensures ok ==> FieldOver() && Headed() && nam.Some? && val.Some? && Good(Entry(name, s)) && res == old(res)
      ensures ok ==>
                f == FeedAll(env, Run(if IsDynamic(typ) then Cleared().(t := TableSpec.Index(hp.State(), Entry(name, s))) else Cleared()), blk)
      ensures !ok ==> res != BUF && f == Fail(res, hp.es, hp.evs)
      ensures hp.es == old(hp.es) && hp.sz == old(hp.sz)
    {
      hide Core; hide Feed; hide WfEnv; hide FeedAll; hide Token; hide StringDone; hide ValueOk; hide Inv; hide Index; hide Over;
      hide WfSize; hide AllGood; hide Total; hide Hpack.Valid; hide Hpack.Fits; hide WfCode; hide WfTables;
      FeedNothing(env);
      CoreFacts();
      ghost var q := Q();
      ValueDone(q, s);
      OverInv(q, s);
      LastString(val.value, s);
      hide Q; hide Cleared;
      var valOk := HpvValue(buf[val.value..pos - 1]);
      if !valOk {
        res := CHR;
        return false;
      }
      ReportField(s);
      ok := true;
    }

    /** The value of a field: the second half of hpack_decode_field. */
    method ValuePart(ghost f: Out) returns (ok: bool, ghost s: seq<byte>)
      requires AtValue(f) && Rehuffed()
      modifies `stp, `bsy, `hpi, `hufMagic, `huf, `left, `hs, `blk, `res, `pos, `done, `nam, `val, `str, hp`tooBig, hp`evs, buf
      ensures ok ==> FieldOver() && Headed() && nam.Some? && val.Some? && str == s + [0] && Good(Entry(name, s)) && res == old(res)
      ensures ok ==> |blk| < |old(blk)|
      ensures ok ==>
                f == FeedAll(env, Run(if IsDynamic(typ) then Cleared().(t := TableSpec.Index(hp.State(), Entry(name, s))) else Cleared()), blk)
      ensures !ok ==> Ended(f)
      ensures hp.es == old(hp.es) && hp.sz == old(hp.sz)
    {
      hide Core; hide FeedAll; hide Token; hide StringDone; hide Inv; hide Index; hide FieldOver; hide Good; hide Headed;
      hide Cleared;
      hide Rehuffed; hide Windowed; hide Pend;
      InvSteady(S());
      ok, s := DecodeString(f);
      if ok { ok := TakeValue(f, s); }
    }
  
    /** hpack_decode_field */
    method DecodeField(ghost f: Out) returns (ok: bool, ghost s: seq<byte>)
      requires if stp == FldInt then Core() && Linked() && Opening(Q()) && f == FeedAll(env, Opened(env, Q()), blk)
               else Valid() && Rehuffed() && f == FeedAll(env, Run(S()), blk)
      modifies `stp, `bsy, `hpi, `hufMagic, `huf, `left, `hs, `blk, `res, `pos, `done, `nam, `namSz, `val, `name, `head, `str,
               hp`tooBig, hp`evs, buf
      ensures ok ==> FieldOver() && Headed() && nam.Some? && val.Some? && str == s + [0] && Good(Entry(name, s)) && res == old(res)
      ensures ok ==> |blk| < |old(blk)|
      ensures ok ==>
                f == FeedAll(env, Run(if IsDynamic(typ) then Cleared().(t := TableSpec.Index(hp.State(), Entry(name, s))) else Cleared()), blk)
      ensures !ok ==> Ended(f)
      ensures hp.es == old(hp.es) && hp.sz == old(hp.sz)
    {
      hide Hpack.Fits; hide Cleared; hide FieldOver; hide Ended; hide Used; hide Limit; hide Token; hide WfEnv;
      hide Core; hide Feed; hide FeedAll; hide Inv; hide Index; hide AllGood; hide Total; hide WfSize; hide IndexedName; hide Good;
      s := [];
      if stp == FldInt {
        if idx == 0 { OpeningInv(Q()); }
        stp := NamLen;
        nam := Some(pos);
        CoreFacts();
      } else {
        InvSteady(S());
      }
      if InName(stp) {
        ok := NamePart(f);
        if !ok { return; }
      }
      ok, s := ValuePart(f);
    }

    /** What the tests of the main loop left true of the field that starts. */
    ghost predicate Headway()
      reads `typ, `canUpd, hp`sz
    {
      if UpdBit(typ) then IsUpdate(typ) ==> canUpd else hp.sz.nxt < 0 && !canUpd
    }

    /** The integer that starts a field, or an update. */
    method FieldNumber(pfx: prefix, ghost f: Out) returns (ok: bool, v: u16)
      requires Valid() && stp == FldInt && blk != [] && Headway()
      requires f == FieldGo(env, S(), IntScan(bsy, hpi, pfx, blk))
      modifies `blk, `bsy, `hpi, `res
      ensures ok ==> Valid() && !bsy && res == old(res) && |blk| < |old(blk)| && f == FeedAll(env, FieldInt(env, S(), v), blk)
      ensures !ok ==> Ended(f)
    {
      hide Core; hide FieldInt; hide FeedAll; hide Inv; hide IntScan; hide WfEnv; hide Windowed; hide Pend;
      ghost var d, sc := S(), IntScan(bsy, hpi, pfx, blk);
      if sc.r.More? { BusyInv(d, huf, sc.r.h); }
      StartedInv(d);
      ok, v := HpiDecode(pfx);
    }

    /** The name `s` and its NUL were copied: the value comes next. */
    method TurnToValue(ghost s: seq<byte>)
      requires Core() && head == [] && str == s + [0] && nam == Some(|done|) && namSz == |s|
      modifies `name, `head, `str, `val
      ensures Core() && Headed() && val.Some? && str == [] && name == s
    {
      CoreFacts();
      hide WfEnv; hide WfTables; hide Hpack.Valid;
      assert done + [] + str == done + str + [];
      name, head, str := s, str, [];
      val := Some(pos);
    }

    /** The name of an entry and its NUL are copied. */
    method CopyName(s: seq<byte>) returns (ok: bool)
      requires Core() && Linked() && stp == FldInt && str == []
      modifies `pos, `done, `nam, `namSz, `val, `name, `head, `str, `res, hp`tooBig, buf
      ensures ok <==> |s| + 1 <= buf.Length
      ensures if ok then res == old(res) else res == BIG
      ensures ok ==> Core() && Headed() && nam.Some? && val.Some? && str == []
      ensures ok ==> Q() == Room(old(Q()), 0, |s| + 1).(nam := s)
    {
      hide Core; hide WfEnv; hide WfTables; hide Hpack.Valid; hide Hpack.Fits;
      hide AllGood; hide Room; hide WfCode; hide Total; hide WfSize;
      CoreFacts();
      ghost var q := Q();
      nam := Some(pos);
      namSz := |s|;
      ok := Cat(s + [0]);
      if !ok { return; }
      TurnToValue(s);
      RoomIs(q, 0, |s| + 1, Q().(nam := q.nam));
    }

    /** The value is copied after it. */
    method CopyValue(s: seq<byte>) returns (ok: bool)
      requires Core() && Headed() && nam.Some? && val.Some? && str == []
      modifies `pos, `done, `nam, `val, `str, `res, hp`tooBig, buf
      ensures ok <==> |name| + 1 + |s| + 1 <= buf.Length
      ensures if ok then res == old(res) else res == BIG
      ensures ok ==> Core() && Headed() && nam.Some? && val.Some? && str == s + [0]
      ensures ok ==> Q().(str := []) == Room(old(Q()), |name| + 1, |s| + 1)
    {
      hide Core;
      ok := Cat(s + [0]);
    }

    /** The strings of an entry are copied one after the other, and reported. */
    method CopyEntry(e: Entry) returns (ok: bool)
      requires Core() && Linked() && stp == FldInt && str == []
      modifies `stp, `pos, `done, `nam, `namSz, `val, `name, `head, `str, `res, hp`tooBig, hp`evs, buf
      ensures Copied(old(Q()), e) == if ok then Run(Cleared()) else Stop(old(Q()), BIG)
      ensures if ok then Core() && stp == FldInt && res == old(res) else res == BIG
      ensures hp.es == old(hp.es) && (!ok ==> hp.evs == old(hp.evs))
    {
      hide Over; hide Room; hide Core; hide Headed; hide Cleared; hide Linked;
      ok := CopyName(e.nam);
      if !ok { return; }
      ok := CopyValue(e.val);
      if !ok { return; }
      OverStr(Q(), [], e.val);
      ReportField(e.val);
    }

    /** HPT_decode */
    method HptDecode(i: u16, ghost f: Out) returns (ok: bool)
      requires Valid() && stp == FldInt && !bsy && f == FeedAll(env, Indexed(env, S(), i), blk)
      modifies `stp, `pos, `done, `nam, `namSz, `val, `name, `head, `str, `res, hp`tooBig, hp`evs, buf
      ensures ok ==> FieldOver() && res == old(res) && f == FeedAll(env, Run(Cleared()), blk)
      ensures !ok ==> res != BUF && f == Fail(res, hp.es, hp.evs)
    {
      hide WfEnv; hide FeedAll; hide Lookup; hide Inv; hide Copied; hide Indexed; hide Core; hide Linked; hide Cleared;
      FeedNothing(env);
      CoreFacts();
      IndexedIs(env, S(), i);
      NothingWritten(S());
      if !(i > 0) { res := IDX; return false; }
      var hf, at := hp.Field(env.stat, i);
      if hf.None? { res := IDX; return false; }
      ok := CopyEntry(hf.value);
    }

    /** hpack_decode_indexed */
    method DecodeIndexed(ghost f: Out) returns (ok: bool)
      requires Valid() && stp == FldInt && blk != [] && Headway() && IsIndexed(typ)
      requires f == FieldGo(env, S(), IntScan(bsy, hpi, 7, blk))
      modifies `stp, `bsy, `hpi, `blk, `pos, `done, `nam, `namSz, `val, `name, `head, `str, `res, hp`tooBig, hp`evs, buf
      ensures ok ==> FieldOver() && res == old(res) && |blk| < |old(blk)| && f == FeedAll(env, Run(Cleared()), blk)
      ensures !ok ==> Ended(f)
    {
      hide FeedAll; hide Inv; hide Indexed; hide Core; hide IntScan; hide FieldOver; hide Cleared;
      var v;
      ok, v := FieldNumber(7, f);
      if !ok { return; }
      NoteInv(S(), FieldEvt(v));
      hp.Notify(FieldEvt(v));
      ok := HptDecode(v, f);
    }

    /** The table takes new limits, and the update is reported. */
    method NewLimits(s: Size, v: u16)
      requires Core() && WfSize(s) && s.max <= hp.mem && s.nxt <= hp.mem
      modifies hp`sz, hp`len, hp`cnt, hp`es, hp`evs
      ensures Core() && hp.State() == Note(TableSpec.Adjust(old(hp.State()).(sz := s), Total(old(hp.es))), TableEvt(v))
    {
      CoreFacts();
      hide WfEnv; hide WfTables; hide Hpack.Valid; hide Total; hide Adjust; hide AllGood; hide Note;
      hp.SetLimits(s);
      hp.Notify(TableEvt(v));
    }

    /** The limits that an update sets, or its first refusal. */
    method PickLimits(v: u16) returns (ok: bool, s: Size)
      requires hp.sz.min >= 0 ==> hp.sz.nxt >= hp.sz.min
      modifies `canUpd, `res
      ensures Update(old(S()), v) == if ok then DecoderSpec.Resize(S(), s, v) else Stop(old(S()), UPD)
      ensures if ok then res == old(res) && S() == old(S()).(canUpd := canUpd) else res == UPD
      ensures var z := hp.sz; ok ==>
                && (0 <= z.min == z.nxt ==> v <= z.nxt)
                && s == if z.min < 0 then z else if z.min < z.nxt then z.(min := z.nxt) else Size(if z.nxt >= 0 then z.nxt else 0, v, -1, -1)
    {
      hide DecoderSpec.Resize; hide Windowed; hide Pend;
      s := hp.sz;
      if s.min >= 0 {
        if s.min < s.nxt {
          if !(v == s.min) { res := UPD; return false, s; }
          return true, s.(min := s.nxt);
        }
        if !(v == s.nxt || v < s.nxt) { res := UPD; return false, s; }
        s := Size(s.nxt, v, -1, -1);
      }
      canUpd := false;
      ok := true;
    }

    /** The second half of hpack_decode_update. */
    method ApplyUpdate(v: u16, ghost f: Out) returns (ok: bool)
      requires Valid() && stp == FldInt && !bsy && canUpd && f == FeedAll(env, Update(S(), v), blk)
      modifies `canUpd, `res, hp`sz, hp`len, hp`cnt, hp`es, hp`evs
      ensures ok ==> Valid() && res == old(res) && f == FeedAll(env, Run(S()), blk)
      ensures !ok ==> res != BUF && f == Fail(res, hp.es, hp.evs)
    {
      ValidLinked();
      UpdateInv(S(), v);
      UpdateSize(S(), v);
      FeedNothing(env);
      CoreFacts();
      StateOf();
      hide FeedAll; hide Inv; hide Core; hide AllGood; hide Total; hide Adjust; hide WfEnv; hide Hpack.Valid; hide Update;
      hide Linked; hide WfSize; hide Note; hide Limit; hide S; hide Q; hide Valid;
      var s;
      ok, s := PickLimits(v);
      if !ok { return; }
      StateOf();
      if !(v <= s.max) { res := LEN; return false; }
      NewLimits(s.(lim := v), v);
      LimitsMoved();
      Suspended();
    }

    /** What an update does to the abstract decoder. */
    twostate lemma LimitsMoved()
      requires unchanged(`stp, `bsy, `typ, `idx, `hpi, `huf, `done, `buf, `name, `str, `left, `hs)
      ensures S() == old(S()).(canUpd := canUpd, t := hp.State())
    {
      hide Windowed; hide Pend;
    }

    /** hpack_decode_update */
    method DecodeUpdate(ghost f: Out) returns (ok: bool)
      requires Valid() && stp == FldInt && blk != [] && IsUpdate(typ)
      requires f == if canUpd then FieldGo(env, S(), IntScan(bsy, hpi, 5, blk)) else Fail(UPD, hp.es, hp.evs)
      modifies `bsy, `hpi, `blk, `canUpd, `res, hp`sz, hp`len, hp`cnt, hp`es, hp`evs
      ensures ok ==> Valid() && stp == FldInt && !bsy && res == old(res) && |blk| < |old(blk)| && f == FeedAll(env, Run(S()), blk)
      ensures !ok ==> Ended(f)
    {
      hide FeedAll; hide Inv; hide IntScan; hide Core; hide Update; hide Indexed; hide IndexedName; hide Linked; hide Windowed;
      hide Pend;
      hide FieldGo;
      if !canUpd { res := UPD; return false; }
      var v;
      ok, v := FieldNumber(5, f);
      if ok { ok := ApplyUpdate(v, f); }
    }

    /** The integer that starts a literal field. */
    method OpenField(pfx: prefix, ghost f: Out) returns (ok: bool)
      requires Valid() && stp == FldInt && blk != [] && Headway() && !IsIndexed(typ) && !IsUpdate(typ)
      requires f == FieldGo(env, S(), IntScan(bsy, hpi, pfx, blk))
      modifies `bsy, `hpi, `blk, `idx, `res, hp`evs
      ensures ok ==> Core() && Linked() && stp == FldInt && res == old(res) && |blk| < |old(blk)|
      ensures ok ==> var q := if IsNever(typ) then Notify(Q(), NeverEvt) else Q(); Opening(q) && f == FeedAll(env, Opened(env, q), blk)
      ensures !ok ==> Ended(f)
    {
      hide FeedAll; hide Inv; hide IntScan; hide WfEnv; hide WfTables; hide Core; hide Opening; hide Opened; hide FieldInt;
      var v;
      ok, v := FieldNumber(pfx, f);
      if !ok { return; }
      FieldIntOpens(env, S(), v);
      idx := v;
      hp.Notify(FieldEvt(0));
    }

    /** hpack_decode_literal */
    method DecodeLiteral(ghost f: Out) returns (ok: bool)
      requires Valid() && Headway() && !IsIndexed(typ) && !IsDynamic(typ) && !IsUpdate(typ) && !IsNever(typ) && Rehuffed()
      requires if stp == FldInt then blk != [] && f == FieldGo(env, S(), IntScan(bsy, hpi, 4, blk)) else f == FeedAll(env, Run(S()), blk)
      modifies `stp, `bsy, `hpi, `idx, `hufMagic, `huf, `left, `hs, `blk, `res, `pos, `done, `nam, `namSz, `val, `name, `head, `str,
               hp`tooBig, hp`evs, buf
      ensures ok ==> FieldOver() && res == old(res) && |blk| < |old(blk)| && f == FeedAll(env, Run(Cleared()), blk)
      ensures !ok ==> Ended(f)
    {
      hide FeedAll; hide Inv; hide IntScan; hide Core; hide Opening; hide Opened; hide Linked; hide FieldOver; hide Cleared;
      hide Good;
      if stp == FldInt {
        ok := OpenField(4, f);
        if !ok { return; }
      }
      ghost var s;
      ok, s := DecodeField(f);
    }

    /** hpack_decode_never */
    method DecodeNever(ghost f: Out) returns (ok: bool)
      requires Valid() && Headway() && IsNever(typ) && Rehuffed()
      requires if stp == FldInt then blk != [] && f == FieldGo(env, S(), IntScan(bsy, hpi, 4, blk)) else f == FeedAll(env, Run(S()), blk)
      modifies `stp, `bsy, `hpi, `idx, `hufMagic, `huf, `left, `hs, `blk, `res, `pos, `done, `nam, `namSz, `val, `name, `head, `str,
               hp`tooBig, hp`evs, buf
      ensures ok ==> FieldOver() && res == old(res) && |blk| < |old(blk)| && f == FeedAll(env, Run(Cleared()), blk)
      ensures !ok ==> Ended(f)
    {
      hide FeedAll; hide Inv; hide IntScan; hide Core; hide Opening; hide Opened; hide Linked; hide FieldOver; hide Cleared;
      hide Good;
      if stp == FldInt {
        ok := OpenField(4, f);
        if !ok { return; }
        hp.Notify(NeverEvt);
      }
      ghost var s;
      ok, s := DecodeField(f);
    }

    /** What the insertion of a field does to the abstract decoder. */
    twostate lemma InsertMoved()
      requires unchanged(`canUpd, `stp, `bsy, `typ, `idx, `hpi, `huf, `done, `buf, `name, `head, `str)
      ensures Cleared() == old(Cleared()).(t := hp.State())
    {
    }

    /** HPT_index, seen from the decoder. */
    method PutEntry(n: seq<byte>, v: seq<byte>)
      requires Core() && Good(Entry(n, v))
      modifies hp`evs, hp`len, hp`cnt, hp`es, hp.tbl
      ensures Core() && hp.State() == TableSpec.Index(old(hp.State()), Entry(n, v))
    {
      OutsideInsertable(hp.es, Limit(hp.sz), Entry(n, v));
      hide WfEnv; hide WfTables; hide Good; hide TableSpec.Index; hide Hpack.Valid; hide Insertable; hide Limit;
      hp.Index(n, None, v);
    }

    /** HPT_index, for the field that was just reported. */
    method InsertField(ghost s: seq<byte>)
      requires FieldOver() && Headed() && nam.Some? && val.Some? && str == s + [0] && Good(Entry(name, s))
      modifies hp`evs, hp`len, hp`cnt, hp`es, hp.tbl
      ensures FieldOver() && Cleared() == old(Cleared()).(t := TableSpec.Index(old(hp.State()), Entry(name, s)))
    {
      hide Core; hide Inv; hide Good; hide TableSpec.Index; hide Cleared; hide Headed; hide Q;
      FieldStrings(s);
      ClearedIs();
      IndexKeeps(Cleared(), Entry(name, s));
      PutEntry(buf[nam.value..nam.value + namSz], buf[val.value..pos - 1]);
      InsertMoved();
    }

    lemma FieldStrings(s: seq<byte>)
      requires Core() && Headed() && nam.Some? && val.Some? && str == s + [0]
      ensures nam.value + namSz < pos && buf[nam.value..nam.value + namSz] == name
      ensures val.value + |s| + 1 == pos <= buf.Length && buf[val.value..pos - 1] == s
    {
      NameString();
      HeadedIs();
      LastString(val.value, s);
      CoreFacts();
      hide Core; hide Headed;
    }

    lemma ClearedIs()
      requires FieldOver()
      ensures Cleared().t == hp.State()
    {
      hide Core; hide Inv;
    }

    /** hpack_decode_dynamic */
    method DecodeDynamic(ghost f: Out) returns (ok: bool)
      requires Valid() && Headway() && IsDynamic(typ) && Rehuffed()
      requires if stp == FldInt then blk != [] && f == FieldGo(env, S(), IntScan(bsy, hpi, 6, blk)) else f == FeedAll(env, Run(S()), blk)
      modifies `stp, `bsy, `hpi, `idx, `hufMagic, `huf, `left, `hs, `blk, `res, `pos, `done, `nam, `namSz, `val, `name, `head, `str,
               hp`tooBig, hp`evs, buf, hp`len, hp`cnt, hp`es, hp.tbl
      ensures ok ==> FieldOver() && res == old(res) && |blk| < |old(blk)| && f == FeedAll(env, Run(Cleared()), blk)
      ensures !ok ==> Ended(f)
    {
      hide FeedAll; hide Inv; hide IntScan; hide Opening; hide Opened; hide Linked; hide Headed; hide Good; hide TableSpec.Index;
      hide FieldOver; hide Cleared; hide Core;
      if stp == FldInt {
        ok := OpenField(6, f);
        if !ok { return; }
      }
      ghost var s;
      ok, s := DecodeField(f);
      if ok { InsertField(s); }
    }

    /** What is to be decoded from here: `f`, past the tests of the main loop. */
    ghost predicate Passed(f: Out)
      reads this, hp
    {
      && Headway()
      && f == if stp == FldInt then FieldGo(env, S(), IntScan(bsy, hpi, Prefix(typ), blk)) else FeedAll(env, Run(S()), blk)
    }

    /** The tests at the top of the loop of hpack_decode. */
    method HeadTest(ghost f: Out) returns (ok: bool)
      requires Valid() && blk != [] && f == FeedAll(env, Run(S()), blk)
      modifies `typ, `canUpd
      ensures ok ==> Valid() && (if IsUpdate(typ) && !canUpd then stp == FldInt && f == Fail(UPD, hp.es, hp.evs) else Passed(f))
      ensures !ok ==> f == Fail(RSZ, hp.es, hp.evs)
    {
      hide Core; hide FeedAll; hide IntScan; hide FieldGo; hide Windowed; hide Pend; hide Linked;
      HeadIs(env, S(), blk);
      HeadKeeps(S());
      hide Inv;
      if !bsy && stp == FldInt { typ := blk[0]; }
      if !UpdBit(typ) {
        if hp.sz.nxt >= 0 { return false; }
        canUpd := false;
      }
      IntScanFresh(hpi, IDLE, Prefix(typ), blk);
      return true;
    }

    /** What is in the buffer belongs to whole fields from now on. */
    ghost method MoveDone()
      requires Core()
      modifies `done, `name, `head, `str
      ensures Core() && done == old(done + head + str) && name == head == str == []
    {
      hide WfEnv; hide WfTables; hide Hpack.Valid;
      assert done + head + str == done + head + str + [] + [];
      done, name, head, str := done + head + str, [], [], [];
    }

    /** `ctx->fld` is cleared at the end of a field. */
    method ClearField()
      requires FieldOver()
      modifies `nam, `namSz, `val, `done, `name, `head, `str
      ensures Valid() && stp == FldInt && !bsy && S() == old(Cleared())
    {
      hide Inv; hide Core; hide Windowed; hide Pend;
      nam, namSz, val := None, 0, None;
      MoveDone();
    }

    /** One field, by its type; the five types exclude each other. */
    method DecodeByType(ghost f: Out) returns (ok: bool)
      requires Valid() && blk != [] && Rehuffed() && !IsUpdate(typ) && Passed(f) && (stp != FldInt ==> !IsIndexed(typ))
      modifies this, hp, hp.tbl, buf
      ensures hp.tbl == old(hp.tbl) && buf == old(buf) && defunct == old(defunct)
      ensures ok ==> FieldOver() && res == old(res) && |blk| < |old(blk)| && f == FeedAll(env, Run(Cleared()), blk)
      ensures !ok ==> Ended(f)
    {
      hide Valid; hide S; hide FeedAll; hide FieldGo; hide IntScan; hide Rehuffed; hide FieldOver; hide Cleared; hide Ended;
      hide UpdBit;
      if IsIndexed(typ) {
        ok := DecodeIndexed(f);
      } else if IsDynamic(typ) {
        ok := DecodeDynamic(f);
      } else if IsNever(typ) {
        ok := DecodeNever(f);
      } else {
        ok := DecodeLiteral(f);
      }
    }

    lemma TypeFacts()
      requires Valid()
      ensures stp != FldInt ==> !IsIndexed(typ) && !IsUpdate(typ)
    {
      hide Core; hide Linked; hide Windowed; hide Pend; hide AllGood; hide Total; hide WfSize;
    }

    /** One field or update: the body of the loop of hpack_decode past its tests. */
    method DecodeOne(ghost f: Out) returns (ok: bool)
      requires Valid() && blk != [] && Rehuffed()
      requires if IsUpdate(typ) && !canUpd then stp == FldInt && f == Fail(UPD, hp.es, hp.evs) else Passed(f)
      modifies this, hp, hp.tbl, buf
      ensures hp.tbl == old(hp.tbl) && buf == old(buf) && defunct == old(defunct)
      ensures ok ==> Valid() && stp == FldInt && !bsy && res == old(res) && |blk| < |old(blk)| && f == FeedAll(env, Run(S()), blk)
      ensures !ok ==> Ended(f)
    {
      hide Valid; hide S; hide FeedAll; hide FieldGo; hide IntScan; hide Rehuffed; hide FieldOver; hide Cleared; hide Ended;
      TypeFacts();
      if IsUpdate(typ) {
        ok := DecodeUpdate(f);
      } else {
        hide Passed; hide IsUpdate; hide IsIndexed;
        ok := DecodeByType(f);
        if ok { ClearField(); }
      }
    }

    /** Between two calls of hpack_decode. */
    ghost predicate Ready()
      reads this, hp, hp.tbl, buf
    {
      Valid() && !defunct && (res == BLK || (res == OK && !MidField(S())))
    }

    lemma ReadyFacts()
      requires Ready()
      ensures Valid() && !defunct && (res == BLK || (res == OK && !MidField(S())))
    {
      hide Valid; hide S;
    }

    /** How a call that consumed its chunk, as `f` tells, leaves the decoder. */
    ghost predicate After(f: Out, r: Res, cut: bool)
      reads this, hp, hp.tbl, buf
    {
      && r == Verdict(f, cut)
      && if r == BLK || r == OK || r == SKP then Ready() && blk == [] && f == Run(S()) && res == (if cut then BLK else OK)
         else defunct && (if f.Run? then hp.es == f.d.t.es && hp.evs == f.d.t.evs else hp.es == f.es && hp.evs == f.evs)
    }

    /** The body of the loop of hpack_decode past its tests; `r` is what the call returns if it ends here. */
    method DecodeTyped(cut: bool, ghost f: Out) returns (ok: bool, r: Res)
      requires Valid() && !defunct && Rehuffed() && res == (if cut then BLK else OK) && blk != [] && (f.Fail? ==> Failure(f.res))
      requires if IsUpdate(typ) && !canUpd then stp == FldInt && f == Fail(UPD, hp.es, hp.evs) else Passed(f)
      modifies this, hp, hp.tbl, buf
      ensures hp.tbl == old(hp.tbl) && buf == old(buf)
      ensures if ok then
                && Valid() && !defunct && Rehuffed() && f == FeedAll(env, Run(S()), blk) && res == old(res)
                && !bsy && stp == FldInt && |blk| < |old(blk)|
              else After(f, r, cut)
    {
      hide Valid; hide S; hide FeedAll; hide Rehuffed; hide Passed; hide IsUpdate;
      r := OK;
      ok := DecodeOne(f);
      StateOf();
      KeepHuf();
      if !ok {
        if cut && res == BUF { res := BLK; } else { defunct := true; }
        r := res;
      }
    }

    /** The body of the loop of hpack_decode. */
    method DecodeTurn(cut: bool, ghost f: Out) returns (ok: bool, r: Res)
      requires Valid() && !defunct && Rehuffed() && f == FeedAll(env, Run(S()), blk)
      requires res == (if cut then BLK else OK) && blk != [] && (f.Fail? ==> Failure(f.res))
      modifies this, hp, hp.tbl, buf
      ensures hp.tbl == old(hp.tbl) && buf == old(buf)
      ensures if ok then
                && Valid() && !defunct && Rehuffed() && f == FeedAll(env, Run(S()), blk) && res == old(res)
                && !bsy && stp == FldInt && |blk| < |old(blk)|
              else After(f, r, cut)
    {
      hide Valid; hide S; hide FeedAll; hide Rehuffed; hide Passed; hide IsUpdate;
      ok := HeadTest(f);
      if !ok {
        defunct := true;
        return false, RSZ;
      }
      ok, r := DecodeTyped(cut, f);
    }

    /** The loop of hpack_decode. */
    method DecodeLoop(cut: bool, ghost f: Out) returns (r: Res)
      requires Valid() && !defunct && Rehuffed() && f == FeedAll(env, Run(S()), blk)
      requires res == (if cut then BLK else OK) && blk != [] && (f.Fail? ==> Failure(f.res))
      modifies this, hp, hp.tbl, buf
      ensures hp.tbl == old(hp.tbl) && buf == old(buf)
      ensures After(f, r, cut)
    {
      hide Valid; hide S; hide FeedAll; hide Rehuffed;
      FeedNothing(env);
      ghost var first := true;
      while |blk| > 0
        invariant Valid() && !defunct && Rehuffed() && f == FeedAll(env, Run(S()), blk)
        invariant res == (if cut then BLK else OK) && (first || (!bsy && stp == FldInt)) && (first ==> blk != [])
        invariant hp.tbl == old(hp.tbl) && buf == old(buf)
        decreases |blk|
      {
        var ok;
        ok, r := DecodeTurn(cut, f);
        if !ok { return; }
        first := false;
      }
      StateOf();
      if hp.tooBig && res == OK { return SKP; }
      return res;
    }

    /** What the abstract decoder shows of the concrete one. */
    lemma StateOf()
      ensures S().t == hp.State() && S().stp == stp && S().bsy == bsy && MidField(S()) == (bsy || stp != FldInt)
    {
    }

    lemma KeepHuf()
      ensures !bsy && stp == FldInt ==> Rehuffed()
    {
    }

    /** What the first chunk of a block does to the abstract decoder. */
    twostate lemma StartMoved()
      requires unchanged(`bsy, `typ, `idx, `hpi, `huf, `name, `str, `left, `hs, hp) && !old(MidField(S()))
      requires canUpd && stp == FldInt && done == []
      ensures S() == Start(old(S()), buf.Length)
    {
      hide Windowed; hide Pend;
    }

    lemma NothingHeld()
      requires Valid() && !MidField(S())
      ensures head == [] && str == [] && name == [] && stp == FldInt && !bsy && nam == None && val == None
      ensures WfEnv(env) && WfTables(env.code, ts) && hp.Valid() && !hp.mon
    {
      NothingWritten(S());
      hide Inv; hide WfEnv; hide WfTables; hide Hpack.Valid; hide Windowed; hide Pend;
    }

    /** The first chunk of a block takes its buffer. */
    method StartBlock(b: array<byte>)
      requires Valid() && hp.tbl != b && !MidField(S())
      modifies `buf, `pos, `canUpd, `done, `stp
      ensures Valid() && buf == b && S() == Start(old(S()), b.Length) && !bsy
    {
      ValidLinked();
      StartInv(S(), b.Length);
      NothingHeld();
      hide Inv; hide WfEnv; hide WfTables; hide Hpack.Valid; hide S; hide Q; hide Valid; hide MidField;
      buf, pos, canUpd, stp := b, 0, true, FldInt;
      done := [];
      StartMoved();
      Suspended();
    }

    /** The next chunk: the length of a string may be under way. */
    method ResumeBlock(b: byte)
      requires Valid()
      modifies `huf
      ensures Valid() && S() == Resume(old(S()), b) && (bsy && stp != FldInt ==> huf == (b >= 0x80))
    {
      ResumeInv(S(), b);
      hide Inv; hide Core; hide Windowed; hide Pend;
      huf := if bsy && stp != FldInt then b >= 0x80 else huf;
    }

    /** hpack_decode, past its checks. */
    method DecodeChunk(block: seq<byte>, cut: bool) returns (r: Res)
      requires Valid() && !defunct && block != [] && (bsy && stp != FldInt ==> huf == (block[0] >= 0x80))
      modifies this, hp, hp.tbl, buf
      ensures hp.tbl == old(hp.tbl) && buf == old(buf)
      ensures After(FeedAll(env, Run(old(S())), block), r, cut)
    {
      hide Valid; hide S; hide FeedAll; hide After;
      blk := block;
      res := if cut then BLK else OK;
      FeedAllFailure(env, Run(S()), blk);
      r := DecodeLoop(cut, FeedAll(env, Run(S()), blk));
    }

    /** hpack_decode */
    method Decode(block: seq<byte>, b: array<byte>, cut: bool) returns (r: Res)
      requires !defunct ==> Ready() && hp.tbl != b
      modifies this, hp, hp.tbl, buf, b
      ensures hp.tbl == old(hp.tbl) && (buf == old(buf) || buf == b)
      ensures old(defunct) || block == [] || b.Length == 0 ==>
                r == ARG && unchanged(this) && unchanged(hp) && unchanged(buf) && unchanged(b) && unchanged(hp.tbl)
      ensures !old(defunct) && block != [] && b.Length > 0 ==>
                if (if old(res) == BLK then b != old(buf) else old(hp.tooBig)) then r == ARG && res == ARG && S() == old(S())
                else buf == b && After(Called(env, old(S()), old(res) == BLK, b.Length, block), r, cut)
    {
      hide Valid; hide S; hide FeedAll; hide After; hide Ready; hide Start; hide Resume; hide MidField;
      if defunct || block == [] || b.Length == 0 { return ARG; }
      ReadyFacts();
      if res == BLK {
        if !(b == buf) { res := ARG; return ARG; }
        ResumeBlock(block[0]);
      } else {
        if !(!hp.tooBig) { res := ARG; return ARG; }
        StartBlock(b);
      }
      r := DecodeChunk(block, cut);
    }

    /** hpack_resize */
    method Resize(length: nat) returns (r: Res)
      requires !defunct ==> Ready()
      modifies `defunct, hp`mem, hp`tbl, hp`sz
      ensures r == if old(defunct) then ARG else if res == BLK then BSY else if length >= 0x1_0000 then LEN else OK
      ensures defunct == (old(defunct) || r == LEN)
      ensures r == OK ==> Ready() && S() == old(S()).(t := old(hp.State()).(sz := Resized(old(hp.sz), length)))
      ensures r == OK || hp.State() == old(hp.State())
      ensures r == BSY ==> unchanged(this) && unchanged(hp)
      ensures hp.mem == if r != OK || length <= old(hp.mem) then old(hp.mem) else length
      ensures hp.tbl == old(hp.tbl) || fresh(hp.tbl)
    {
      hide Hpack.Valid; hide Sound; hide WfCode; hide Good; hide Headed; hide Limit;
      if defunct { return ARG; }
      if res != OK { return BSY; }
      ResizedInv(S(), if length < 0x1_0000 then length else 0);
      hide Inv; hide Windowed; hide Pend; hide WfTables; hide WfEnv; hide Hpack.Fits;
      var ok := hp.Resize(length);
      if !ok {
        defunct := true;
        return LEN;
      }
      return OK;
    }

    /** hpack_skip */
    method HpackSkip() returns (r: Res)
      requires !defunct ==> Ready()
      modifies hp`tooBig
      ensures r == (if defunct || !old(hp.tooBig) then ARG else OK)
      ensures !defunct ==> Ready() && S() == old(S()).(t := old(hp.State()).(tooBig := false))
    {
      hide Inv; hide Core; hide Windowed; hide Pend;
      if defunct || !hp.tooBig { return ARG; }
      hp.tooBig := false;
      BigInv(old(S()));
      return OK;
    }
  }
}

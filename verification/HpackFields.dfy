/** hpack_decode_fields: the header list read back from the output buffer with strlen, without a callback. */
module HpackFields {
  import opened Common
  import opened Validate
  import opened TableSpec
  import opened DecoderSpec
  import opened DecoderScan
  import opened DecoderBlock
  import opened DecoderEvents
  import opened HpackDecoder

  /** strlen, on a buffer that holds the string `s` and its NUL at `at`. */
  method StrLen(a: array<byte>, at: nat, ghost s: seq<byte>) returns (n: nat)
    requires at + |s| + 1 <= a.Length && a[at..at + |s| + 1] == s + [0] && 0 !in s
    ensures n == |s|
  {
    n := 0;
    NulAt(a[..], at, s);
    while a[at + n] != 0
      invariant n <= |s|
      decreases |s| - n
    {
      n := n + 1;
    }
  }

  /** The first NUL of the string. */
  lemma NulAt(m: seq<byte>, at: nat, s: seq<byte>)
    requires at + |s| + 1 <= |m| && m[at..at + |s| + 1] == s + [0] && 0 !in s
    ensures m[at + |s|] == 0 && forall i {:trigger m[i]} :: at <= i < at + |s| ==> m[i] != 0
  {
    var w := m[at..at + |s| + 1];
    assert w[|s|] == m[at + |s|];
    forall i | at <= i < at + |s|
      ensures m[i] != 0
    {
      assert w[i - at] == m[i] && s[i - at] in s;
    }
  }

  lemma {:induction false} PackPrefix(fs: seq<Entry>, k: nat)
    requires k <= |fs|
    ensures Pack(fs[..k]) <= Pack(fs)
  {
    if k == |fs| {
      assert fs[..k] == fs;
    } else {
      PackPrefix(fs[..|fs| - 1], k);
      assert fs[..|fs| - 1][..k] == fs[..k];
    }
  }

  /** Where the field `k` stands in the packed octets. */
  lemma PackAt(fs: seq<Entry>, k: nat)
    requires k < |fs|
    ensures Pack(fs[..k + 1]) == Pack(fs[..k]) + Packed(fs[k].nam, fs[k].val) && Pack(fs[..k + 1]) <= Pack(fs)
  {
    PackPrefix(fs, k + 1);
    assert fs[..k + 1][..k] == fs[..k];
  }

  /** The strings of the field `k`, where the buffer `m` holds the packed fields. */
  lemma StringsOf(m: seq<byte>, fs: seq<Entry>, k: nat)
    requires k < |fs| && Pack(fs) <= m
    ensures var n := |Pack(fs[..k])|; var v := n + |fs[k].nam| + 1; var e := v + |fs[k].val| + 1;
            e <= |Pack(fs)| && m[n..v] == fs[k].nam + [0] && m[v..e] == fs[k].val + [0] && e == |Pack(fs[..k + 1])|
  {
    PackAt(fs, k);
    var p, f := Pack(fs[..k]), fs[k];
    var r := m[|Pack(fs[..k + 1])|..];
    assert m == p + (f.nam + [0]) + (f.val + [0] + r);
    Middle(p, f.nam + [0], f.val + [0] + r);
    assert m == p + (f.nam + [0]) + (f.val + [0]) + r;
    Middle(p + (f.nam + [0]), f.val + [0], r);
  }

  class FieldReader {
    const d: Decoder
    /** The events before the block, and its items. */
    ghost var base: seq<Event>
    ghost var log: seq<Item>

    constructor (d: Decoder)
      requires d.Ready() && d.res == OK
      ensures this.d == d && Between()
    {
      this.d := d;
      base, log := [], [];
    }

    /** Between two chunks, or two blocks. */
    ghost predicate Between()
      reads this, d, d.hp, d.hp.tbl, d.buf
    {
      d.Ready() && (d.res == BLK && !d.hp.tooBig ==> Story(base, d.S(), log))
    }

    /** The buffer holds the fields of a whole block. */
    ghost predicate Listing()
      reads this, d, d.hp, d.hp.tbl, d.buf
    {
      d.Valid() && !d.defunct && !MidField(d.S()) && !d.hp.tooBig && Story(base, d.S(), log)
    }

    /** The pointers are those of the field `k`. */
    ghost predicate At(nam: nat, val: nat, k: nat)
      reads this, d, d.hp, d.hp.tbl, d.buf
    {
      && Listing() && d.res == FLD && k < |Fields(log)|
      && nam == |Pack(Fields(log)[..k])| && val == nam + |Fields(log)[k].nam| + 1
    }

    /** The pointers show the name and the value of that field. */
    lemma Shown(nam: nat, val: nat, k: nat)
      requires At(nam, val, k)
      ensures var f := Fields(log)[k]; var e := val + |f.val| + 1;
              && e <= d.pos <= d.buf.Length && e == |Pack(Fields(log)[..k + 1])|
              && d.buf[nam..val] == f.nam + [0] && d.buf[val..e] == f.val + [0]
              && 0 !in f.nam && 0 !in f.val
              && (e == d.pos <==> k + 1 == |Fields(log)|)
    {
      hide Decoder.Valid; hide Story; hide Pack; hide Fields; hide Token; hide ValueOk; hide Decoder.S;
      Held();
      var fs := Fields(log);
      assert Good(fs[k]);
      NoNul(fs[k].nam, fs[k].val);
      StringsOf(d.buf[..], fs, k);
      if k + 1 < |fs| { StringsOf(d.buf[..], fs, k + 1); } else { assert fs[..k + 1] == fs; }
    }

    lemma Held()
      requires Listing()
      ensures d.pos == |Pack(Fields(log))| <= d.buf.Length && Pack(Fields(log)) <= d.buf[..] && AllGood(Fields(log))
    {
      d.CoreFacts();
      NothingWritten(d.S());
      assert d.done + [] + [] == d.done;
    }

    lemma InvAt()
      ensures d.S().t.tooBig == d.hp.tooBig && d.S().t.evs == d.hp.evs
      ensures d.Valid() ==> Inv(d.S()) && WfEnv(d.env)
    {
      if d.Valid() { d.CoreFacts(); }
    }

    /** The pointers of the field `k`, found from the end of the previous one. */
    method Show(nam: nat, ghost k: nat) returns (val: nat)
      requires Listing() && d.res == FLD && k < |Fields(log)| && nam == |Pack(Fields(log)[..k])|
      ensures At(nam, val, k)
    {
      hide Listing; hide Decoder.Valid; hide Decoder.S; hide Pack; hide Story;
      Shown(nam, nam + |Fields(log)[k].nam| + 1, k);
      var n := StrLen(d.buf, nam, Fields(log)[k].nam);
      val := nam + n + 1;
    }

    /** The chunk that hpack_decode is given, and what comes of it. */
    method Decode(block: seq<byte>, b: array<byte>, cut: bool) returns (r: Res)
      requires Between() && d.hp.tbl != b && block != [] && b.Length > 0
      requires if d.res == BLK then b == d.buf else !d.hp.tooBig
      modifies this, d, d.hp, d.hp.tbl, d.buf, b
      ensures d.hp.tbl == old(d.hp.tbl) && d.buf == b
      ensures d.After(Called(d.env, old(d.S()), old(d.res) == BLK, b.Length, block), r, cut)
      ensures r == BLK ==> Between()
      ensures r == OK ==> Listing()
      ensures base == if old(d.res) == BLK then old(base) else old(d.hp.evs)
    {
      hide Decoder.Valid; hide Decoder.S; hide Story; hide FeedAll; hide Inv; hide WfEnv;
      InvAt();
      ghost var start := d.S();
      if d.res != BLK {
        base, log := d.hp.evs, [];
        StoryStarts(start, b.Length);
        StartInv(start, b.Length);
        start := Start(start, b.Length);
      } else {
        if !d.hp.tooBig { StoryGoesOn(base, start, Resume(start, block[0]), log); }
        ResumeInv(start, block[0]);
        start := Resume(start, block[0]);
      }
      r := d.Decode(block, b, cut);
      if start.t.tooBig {
        FeedAllBig(d.env, Run(start), block);
      } else {
        log := ChunkStory(d.env, base, start, block, log);
      }
      InvAt();
    }

    /** hpack_decode_fields: the next chunk, then one field at a time. `k` is the field that the pointers show. */
    method DecodeFields(block: seq<byte>, b: array<byte>, cut: bool, pnam: Option<nat>, pval: Option<nat>, ghost k: nat)
      returns (r: Res, nam: Option<nat>, val: Option<nat>)
      requires !d.defunct && pnam.None? && pval.None? && (d.res == OK || d.res == BLK) ==> Between() && d.hp.tbl != b
      requires !d.defunct && pnam.Some? && pval.Some? ==> At(pnam.value, pval.value, k) && b == d.buf
      modifies this, d, d.hp, d.hp.tbl, d.buf, b
      ensures old(d.defunct) || pnam.Some? != pval.Some? ==> r == ARG && unchanged(this) && unchanged(d) && nam == pnam && val == pval
      ensures !old(d.defunct) && pnam.None? && pval.None? ==>
                if old(d.res) != OK && old(d.res) != BLK then r == ARG && d.defunct
                else if block == [] || b.Length == 0 || (if old(d.res) == BLK then b != old(d.buf) else old(d.hp.tooBig)) then r == ARG
                else
                  var f := Called(d.env, old(d.S()), old(d.res) == BLK, b.Length, block);
                  && base == (if old(d.res) == BLK then old(base) else old(d.hp.evs))
                  && if Verdict(f, cut) == OK then f == Run(d.S()) && Listed(r, nam, val, 0)
                     else r == Verdict(f, cut) && nam == val == None && d.After(f, r, cut) && (r == BLK ==> Between())
      ensures !old(d.defunct) && pnam.Some? && pval.Some? ==> base == old(base) && log == old(log) && Listed(r, nam, val, k + 1)
    {
      if d.defunct || pnam.Some? != pval.Some? { return ARG, pnam, pval; }
      hide Decoder.Valid; hide Decoder.S; hide Story; hide FeedAll; hide Inv; hide Pack;
      hide Fields; hide Called; hide Listed; hide Decoder.After; hide At; hide Verdict;
      if pnam.None? {
        if d.res != OK && d.res != BLK {
          d.defunct := true;
          return ARG, None, None;
        }
        if block == [] || b.Length == 0 || (if d.res == BLK then b != d.buf else d.hp.tooBig) {
          r := Refused(block, b, cut);
          return r, None, None;
        }
        r, nam, val := First(block, b, cut);
      } else {
        r, nam, val := Following(pnam.value, pval.value, k);
      }
    }

    /** The field after the one shown. */
    method Following(pnam: nat, pval: nat, ghost k: nat) returns (r: Res, nam: Option<nat>, val: Option<nat>)
      requires At(pnam, pval, k)
      modifies d`res
      ensures Listed(r, nam, val, k + 1)
    {
      hide Decoder.Valid; hide Decoder.S; hide Story; hide Pack; hide Fields; hide Listed;
      Shown(pnam, pval, k);
      var n := StrLen(d.buf, pval, Fields(log)[k].val);
      r, nam, val := Next(pval + n + 1, k + 1);
    }

    /** A chunk that hpack_decode refuses. */
    method Refused(block: seq<byte>, b: array<byte>, cut: bool) returns (r: Res)
      requires Between() && d.hp.tbl != b
      requires block == [] || b.Length == 0 || (if d.res == BLK then b != d.buf else d.hp.tooBig)
      modifies d, d.hp, d.hp.tbl, d.buf, b
      ensures r == ARG
    {
      r := d.Decode(block, b, cut);
    }

    /** A chunk is decoded, and if it ends its block the first field is shown. */
    method First(block: seq<byte>, b: array<byte>, cut: bool) returns (r: Res, nam: Option<nat>, val: Option<nat>)
      requires Between() && d.hp.tbl != b && block != [] && b.Length > 0
      requires if d.res == BLK then b == d.buf else !d.hp.tooBig
      modifies this, d, d.hp, d.hp.tbl, d.buf, b
      ensures base == if old(d.res) == BLK then old(base) else old(d.hp.evs)
      ensures var f := Called(d.env, old(d.S()), old(d.res) == BLK, b.Length, block);
              if Verdict(f, cut) == OK then f == Run(d.S()) && Listed(r, nam, val, 0)
              else r == Verdict(f, cut) && nam == val == None && d.After(f, r, cut) && (r == BLK ==> Between())
    {
      hide Decoder.Valid; hide Decoder.S; hide Story; hide FeedAll; hide Inv; hide Pack; hide Fields; hide Called; hide Listed;
      r := Decode(block, b, cut);
      if r != OK { return r, None, None; }
      d.res := FLD;
      PackNothing();
      r, nam, val := Next(0, 0);
    }

    lemma PackNothing()
      ensures |Pack(Fields(log)[..0])| == 0
    {
    }

    /** The end of hpack_decode_fields: the field at `at`, or the end of the list. */
    method Next(at: nat, ghost k: nat) returns (r: Res, nam: Option<nat>, val: Option<nat>)
      requires Listing() && d.res == FLD && k <= |Fields(log)| && at == |Pack(Fields(log)[..k])|
      modifies d`res
      ensures Listed(r, nam, val, k)
    {
      hide Decoder.Valid; hide Decoder.S; hide Story; hide Pack; hide Fields;
      Held();
      if k < |Fields(log)| {
        Shown(at, at + |Fields(log)[k].nam| + 1, k);
      } else {
        assert Fields(log)[..k] == Fields(log);
      }
      if at == d.pos {
        d.res := OK;
        return OK, None, None;
      }
      var v := Show(at, k);
      return FLD, Some(at), Some(v);
    }

    /** The field `k` is shown, or there are no more fields and a new block may come. */
    ghost predicate Listed(r: Res, nam: Option<nat>, val: Option<nat>, k: nat)
      reads this, d, d.hp, d.hp.tbl, d.buf
    {
      && Listing() && d.res == r
      && if k == |Fields(log)| then r == OK && nam == val == None
         else r == FLD && nam.Some? && val.Some? && At(nam.value, val.value, k)
    }
  }
}

/**
 Cutting a block into chunks. It changes nothing, unless cuts fall inside the integer of a string length and the octet
 after the last of them disagrees with the H bit of the first octet.
 */
module Split {
  import opened Common
  import opened IntSpec
  import opened TableSpec
  import opened DecoderSpec
  import opened DecoderScan
  import opened DecoderBlock

  type chunk = s: seq<byte> | |s| > 0 witness [0]

  function Concat(chunks: seq<chunk>): seq<byte> {
    if chunks == [] then [] else chunks[0] + Concat(chunks[1..])
  }

  /** Calls of hpack_decode that go on with a block. */
  function Calls(env: Env, o: Out, chunks: seq<chunk>): Out
    decreases |chunks|
  {
    if chunks == [] || o.Fail? then o
    else Calls(env, Called(env, o.d, true, o.d.cap, chunks[0]), chunks[1..])
  }

  /** The length of a string is under way. */
  predicate MidLength(d: Dec) {
    d.bsy && (d.stp == NamLen || d.stp == ValLen)
  }

  /** The chunk ends inside the length that is under way. */
  predicate Within(d: Dec, s: chunk) {
    MidLength(d) && IntScan(true, d.hpi, 7, s).r.More?
  }

  /** The H bit read again is the one of the string. */
  predicate Clean(d: Dec, b: byte) {
    d.bsy && d.stp != FldInt ==> d.huf == (b >= 0x80)
  }

  /** The last resumption inside of each length reads the H bit of the string again; those before it do not matter. */
  predicate CleanCuts(env: Env, o: Out, chunks: seq<chunk>)
    decreases |chunks|
  {
    chunks == [] || o.Fail?
    || ((Clean(o.d, chunks[0][0]) || (Within(o.d, chunks[0]) && |chunks| > 1))
        && CleanCuts(env, FeedAll(env, o, chunks[0]), chunks[1..]))
  }

  /** The H bit is forgotten at the next call. */
  lemma HufForgotten(env: Env, d: Dec, h: bool, chunks: seq<chunk>)
    requires MidLength(d) && chunks != []
    ensures Calls(env, Run(d.(huf := h)), chunks) == Calls(env, Run(d), chunks)
  {
    assert Resume(d.(huf := h), chunks[0][0]) == Resume(d, chunks[0][0]);
  }

  /** A chunk inside of a length only changes the integer under way. */
  lemma WithinLength(env: Env, d: Dec, s: chunk)
    requires Within(d, s)
    ensures FeedAll(env, Run(d), s) == Run(d.(hpi := IntScan(true, d.hpi, 7, s).r.h))
  {
    LengthScan(env, d, s);
  }

  /** The chunks of a block give what the whole block gives: result, events, table and buffer. */
  lemma {:induction false} SplitInvariant(env: Env, o: Out, chunks: seq<chunk>)
    requires CleanCuts(env, o, chunks)
    ensures Calls(env, o, chunks) == FeedAll(env, o, Concat(chunks))
    decreases |chunks|
  {
    FeedNothing(env);
    if chunks != [] && o.Run? {
      var d, s := o.d, chunks[0];
      FeedAppend(env, o, s, Concat(chunks[1..]));
      SplitInvariant(env, FeedAll(env, o, s), chunks[1..]);
      hide FeedAll;
      if Clean(d, s[0]) {
        assert Resume(d, s[0]) == d;
      } else {
        var e := Resume(d, s[0]);
        WithinLength(env, d, s);
        WithinLength(env, e, s);
        HufForgotten(env, d.(hpi := IntScan(true, d.hpi, 7, s).r.h), e.huf, chunks[1..]);
      }
    }
  }

  /** The same for a block from its first chunk on, up to what the last call returns. */
  lemma SplitBlock(env: Env, d: Dec, cap: nat, first: chunk, chunks: seq<chunk>)
    requires CleanCuts(env, Called(env, d, false, cap, first), chunks)
    ensures var o := Calls(env, Called(env, d, false, cap, first), chunks);
            && o == Called(env, d, false, cap, first + Concat(chunks))
            && Verdict(o, false) == Verdict(Called(env, d, false, cap, first + Concat(chunks)), false)
  {
    var s := Run(Start(d, cap));
    SplitInvariant(env, FeedAll(env, s, first), chunks);
    FeedAppend(env, s, first, Concat(chunks));
  }

  /** An integer may be read in two goes. */
  lemma {:induction false} IntScanAppend(bsy: bool, h: Hpi, a: chunk, b: seq<byte>)
    ensures var x := IntScan(bsy, h, 7, a);
            IntScan(bsy, h, 7, a + b) == if x.r.More? then IntScan(true, x.r.h, 7, b) else Scan(x.r, x.rest + b)
    decreases |a|
  {
    var r := if bsy then IntNext(h, a[0]) else IntFirst(7, a[0]);
    assert (a + b)[1..] == a[1..] + b;
    hide IntNext; hide IntFirst;
    if r.More? {
      if |a| == 1 { assert a[1..] + b == b; } else { IntScanAppend(true, r.h, a[1..], b); }
    }
  }

  /** The sum never goes down. */
  lemma {:induction false} IntScanGrows(h: Hpi, s: seq<byte>)
    ensures match IntScan(true, h, 7, s).r case More(g) => g.v >= h.v case Done(v) => v >= h.v case Overflow => true
    decreases |s|
  {
    if s != [] {
      var r := IntNext(h, s[0]);
      if r.More? { IntScanGrows(r.h, s[1..]); }
    }
  }

  /** An integer of more than one octet is at least 127. */
  lemma LongLength(h: Hpi, s: chunk)
    ensures match IntScan(false, h, 7, s).r case More(g) => g.v >= 127 case _ => true
  {
    Pow2Table();
    var r := IntFirst(7, s[0]);
    if r.More? { IntScanGrows(r.h, s[1..]); }
  }

  /** The calls that read the rest of a length end with the H bit of the last of them. */
  lemma {:induction false} LastPiece(env: Env, d: Dec, pieces: seq<chunk>, len: u16)
    requires MidLength(d) && pieces != [] && IntScan(true, d.hpi, 7, Concat(pieces)) == Scan(Done(len), [])
    ensures Calls(env, Run(d), pieces) == FeedAll(env, Run(d.(huf := pieces[|pieces| - 1][0] >= 0x80)), Concat(pieces))
    decreases |pieces|
  {
    var s, rest := pieces[0], Concat(pieces[1..]);
    var e := d.(huf := pieces[|pieces| - 1][0] >= 0x80);
    IntScanAppend(true, d.hpi, s, rest);
    if |pieces| == 1 {
      assert rest == [] && Concat(pieces) == s;
      assert Resume(d, s[0]) == e;
    } else {
      assert rest != [] by { assert rest == pieces[1] + Concat(pieces[1..][1..]); }
      WithinLength(env, Resume(d, s[0]), s);
      WithinLength(env, e, s);
      FeedAppend(env, Run(e), s, rest);
      var d1 := Resume(d, s[0]).(hpi := IntScan(true, d.hpi, 7, s).r.h);
      LastPiece(env, d1, pieces[1..], len);
      assert pieces[1..][|pieces| - 2] == pieces[|pieces| - 1];
    }
  }

  /** What follows a length depends on the H bit. */
  lemma HufMatters(env: Env, d: Dec, h: bool, s: seq<byte>, len: u16)
    requires MidLength(d) && len > 0 && IntScan(true, d.hpi, 7, s) == Scan(Done(len), [])
    ensures FeedAll(env, Run(d.(huf := h)), s) == FeedAll(env, Run(d), s) <==> h == d.huf
  {
    var e := d.(huf := h);
    LengthScan(env, d, s);
    LengthScan(env, e, s);
    BeginIs(d.(bsy := false, hpi := IDLE), len);
    BeginIs(e.(bsy := false, hpi := IDLE), len);
    FeedNothing(env);
    hide StringBegin; hide FeedAll; hide Finish;
  }

  /**
   The length of a string in any number of pieces gives what the whole length gives exactly when the last piece starts
   with an octet that carries the H bit of the first octet.
   */
  lemma CutInLength(env: Env, d: Dec, pieces: seq<chunk>, len: u16)
    requires !d.bsy && (d.stp == NamLen || d.stp == ValLen) && pieces != []
    requires IntScan(false, d.hpi, 7, Concat(pieces)) == Scan(Done(len), [])
    ensures (Calls(env, Run(d), pieces) == FeedAll(env, Run(d), Concat(pieces)))
            <==> ((pieces[|pieces| - 1][0] >= 0x80) == (pieces[0][0] >= 0x80))
  {
    var s, rest := pieces[0], Concat(pieces[1..]);
    assert Resume(d, s[0]) == d;
    IntScanAppend(false, d.hpi, s, rest);
    LengthScan(env, d, s);
    LongLength(d.hpi, s);
    FeedAppend(env, Run(d), s, rest);
    hide FeedAll; hide IntScan;
    if |pieces| == 1 {
      assert rest == [] && Concat(pieces) == s;
    } else {
      assert rest != [] by { assert rest == pieces[1] + Concat(pieces[1..][1..]); }
      var h := IntScan(false, d.hpi, 7, s).r.h;
      var d1 := d.(bsy := true, hpi := h, huf := s[0] >= 0x80);
      IntScanGrows(h, rest);
      LastPiece(env, d1, pieces[1..], len);
      assert pieces[1..][|pieces| - 2] == pieces[|pieces| - 1];
      HufMatters(env, d1, pieces[|pieces| - 1][0] >= 0x80, rest, len);
    }
  }

  /** A raw string of 127 octets is taken for a Huffman string when its length is cut after the first octet. */
  lemma CutCounterexample(env: Env, d: Dec)
    requires d.stp == NamLen && !d.bsy
    ensures var whole, cut := FeedAll(env, Run(d), [0x7f, 0x80, 0x00]), Calls(env, Run(d), [[0x7f], [0x80, 0x00]]);
            && whole == Run(d.(stp := NamStr, left := 127, huf := false, pend := [], hpi := IDLE))
            && cut == Run(d.(stp := NamStr, left := 127, huf := true, pend := [], hpi := IDLE))
  {
    Pow2Table();
    var a: seq<byte>, b: seq<byte> := [0x7f], [0x80, 0x00];
    assert IntFirst(7, 0x7f) == More(Hpi(127, 0));
    assert IntNext(Hpi(127, 0), 0x80) == More(Hpi(127, 7));
    assert IntNext(Hpi(127, 7), 0x00) == Done(127);
    assert b[1..] == [0x00] && b[1..][1..] == [] && a[1..] == [];
    var d1 := d.(bsy := true, hpi := Hpi(127, 0), huf := false);
    assert Feed(env, d, 0x7f) == Run(d1);
    assert FeedAll(env, Run(d), a) == Run(d1);
    RestOfLength(env, d1);
    RestOfLength(env, Resume(d1, 0x80));
    FeedAppend(env, Run(d), a, b);
    assert a + b == [0x7f, 0x80, 0x00];
    var cs: seq<chunk> := [a, b];
    assert cs[1..] == [b] && cs[1..][1..] == [];
    assert Calls(env, Run(d1), cs[1..]) == Called(env, d1, true, d.cap, b);
    assert Resume(d, a[0]) == d;
  }

  lemma RestOfLength(env: Env, d: Dec)
    requires d.stp == NamLen && d.bsy && d.hpi == Hpi(127, 0)
    ensures FeedAll(env, Run(d), [0x80, 0x00]) == Run(d.(stp := NamStr, left := 127, pend := [], bsy := false, hpi := IDLE))
  {
    Pow2Table();
    var b: seq<byte> := [0x80, 0x00];
    assert b[1..] == [0x00] && b[1..][1..] == [];
    assert IntNext(Hpi(127, 0), 0x80) == More(Hpi(127, 7));
    assert IntNext(Hpi(127, 7), 0x00) == Done(127);
    assert IntScan(true, Hpi(127, 7), 7, [0x00]) == Scan(Done(127), []);
    assert IntScan(true, Hpi(127, 0), 7, b) == Scan(Done(127), []);
    LengthScan(env, d, b);
    BeginIs(d.(bsy := false, hpi := IDLE), 127);
    FeedNothing(env);
  }
}

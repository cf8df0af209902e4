/**
 The decoding tables that gen/hpack_huf_dec.c prints: a trie of the code list with a stride of 8 bits. Each table stands for
 a path, the octets read so far, and is indexed by the next bits (at most 8 of them).
 */
module HuffmanTables {
  import opened Common
  import opened Bits
  import opened HuffmanCode

  /** `struct hph_oct`: a symbol of `len` more bits, a link to the next table, or (length 0) the end-of-string code. */
  datatype Oct = Oct(len: nat, chr: byte, nxt: Option<nat>)

  /** `struct hph_dec` */
  datatype Table = Table(len: nat, oct: seq<Oct>)

  /** All the tables, the first one (`hph_dec0`) at position 0, and the path of each. */
  datatype Tables = Tables(tabs: seq<Table>, ghost paths: seq<bits>)

  /** Entry `e` completes the code of the symbol `s` after the path `p`, and `x` extends what is left of that code. */
  ghost predicate Hit(e: Oct, s: Sym, p: bits, x: bits) {
    CodeOf(s) <= p + x && s.len == |p| + e.len && s.chr == e.chr
  }

  /** The shape of a table: an entry for each index of `len` bits, the first one among the shortest. */
  ghost predicate Shaped(ts: Tables, t: nat) {
    && t < |ts.tabs| == |ts.paths|
    && 1 <= ts.tabs[t].len <= 8 && |ts.tabs[t].oct| == Pow2(ts.tabs[t].len)
    && 0 < ts.tabs[t].oct[0].len <= 8
    && |ts.paths[t]| <= 24 && |ts.paths[t]| % 8 == 0
  }

  /** What an entry says of the bits `x` it is the entry of, after the path of its table. */
  ghost predicate WfEntry(c: Code, ts: Tables, t: nat, x: bits, e: Oct)
    requires Shaped(ts, t)
  {
    && (e.len == 0 || ts.tabs[t].oct[0].len <= e.len <= 8)
    && match e.nxt
       case Some(u) => e.len == 8 == |x| && u < |ts.tabs| && ts.paths[u] == ts.paths[t] + x && ts.paths[u] != []
       case None =>
         if e.len == 0 then ts.paths[t] + x == Eos()
         else exists i :: 0 <= i < |c.syms| && Hit(e, c.syms[i], ts.paths[t], x)
  }

  ghost predicate WfTable(c: Code, ts: Tables, t: nat)
    requires Shaped(ts, t)
  {
    && (forall i :: 0 <= i < |c.syms| ==> !(CodeOf(c.syms[i]) <= ts.paths[t]))
    && (forall n :: 0 <= n < |ts.tabs[t].oct| ==> WfEntry(c, ts, t, Of(n, ts.tabs[t].len), ts.tabs[t].oct[n]))
  }

  ghost predicate WfTables(c: Code, ts: Tables) {
    && |ts.tabs| == |ts.paths| > 0
    && ts.paths[0] == []
    && (forall t :: 0 <= t < |ts.tabs| ==> Shaped(ts, t) && WfTable(c, ts, t))
  }

  // ---- the window ----

  /** The valid bits of the 16-bit window. */
  function Window(w: u16, blen: nat): (b: bits)
    requires blen <= 16
    ensures |b| == blen
  {
    Of(w, 16)[..blen]
  }

  /** The window holds `b`, aligned left and followed by zeros. */
  ghost predicate Holds(w: nat, b: bits) {
    |b| <= 16 && w == Val(b + Zeros(16 - |b|))
  }

  lemma HoldsWindow(w: u16, b: bits)
    requires Holds(w, b)
    ensures Window(w, |b|) == b
  {
    OfVal(b + Zeros(16 - |b|));
  }

  lemma HoldsNothing()
    ensures Holds(0, [])
  {
    ValZeros(16);
    assert [] + Zeros(16) == Zeros(16);
  }

  lemma HoldsBound(w: nat, b: bits)
    requires Holds(w, b)
    ensures w < 0x1_0000
  {
    Pow2Table();
  }

  /** Zeros after a string shift its value. */
  lemma ShiftedIs(b: bits, z: bits)
    requires z == Zeros(|z|)
    ensures Val(b + z) == Val(b) * Pow2(|z|)
  {
    ValAppend(b, z);
    ValZeros(|z|);
    hide Val; hide Pow2; hide Zeros;
  }

  /** `bits |= octet << (8 - blen)` */
  lemma HoldsMore(w: nat, b: bits, octet: byte)
    requires Holds(w, b) && |b| < 8
    ensures Holds(Or(w, octet * Pow2(8 - |b|)), b + Of(octet, 8))
  {
    var n := |b|;
    var o, z := Of(octet, 8), Zeros(8 - n);
    var lo := o + z;
    Pow2Table();
    ValOf(octet, 8);
    hide Val; hide Pow2; hide Or; hide Of; hide Zeros;
    ShiftedIs(b, Zeros(16 - n));
    ShiftedIs(o, z);
    ValAppend(b, lo);
    OrDisjoint(Val(b), 16 - n, Val(lo));
    assert b + o + z == b + lo;
    assert |b + o| == n + 8;
  }

  /** `bits <<= l` in 16 bits */
  lemma HoldsShift(w: nat, b: bits, l: nat)
    requires Holds(w, b) && l <= |b|
    ensures Holds(w * Pow2(l) % 0x1_0000, b[l..])
  {
    Pow2Table();
    var z := b + Zeros(16 - |b|);
    ValShiftLeft(z, l);
    assert z[l..] + Zeros(l) == b[l..] + Zeros(16 - |b[l..]|);
  }

  /** `(bits >> (16 - len)) & 0xff`: the next `len` bits, with zeros where they are not known yet. */
  lemma HoldsIndex(w: nat, b: bits, len: nat)
    requires Holds(w, b) && len <= 8
    ensures w / Pow2(16 - len) % 256 == Val((b + Zeros(16 - |b|))[..len])
  {
    Pow2Table();
    var z := b + Zeros(16 - |b|);
    ValTake(z, len);
    Pow2Mono(len, 8);
  }

  /** `bits == (uint16_t)(0xffff << (16 - blen))`: the test of padding. */
  lemma HoldsPadding(w: nat, b: bits)
    requires Holds(w, b) && |b| < 8
    ensures w == 0xffff * Pow2(16 - |b|) % 0x1_0000 <==> Padding(b)
  {
    Pow2Table();
    var n := |b|;
    ValOnes(16);
    ValShiftLeft(Ones(16), 16 - n);
    assert Ones(16)[16 - n..] == Ones(n);
    var x, y := b + Zeros(16 - n), Ones(n) + Zeros(16 - n);
    if w == Val(y) {
      ValInjective(x, y);
      AppendTake(b, Zeros(16 - n));
      AppendTake(Ones(n), Zeros(16 - n));
    }
  }

  // ---- what an entry tells of the pending bits ----

  /** The bits an index is made of, known or not. */
  function IndexBits(b: bits, len: nat): (x: bits)
    requires |b| <= 16 && len <= 8
    ensures |x| == len
  {
    (b + Zeros(16 - |b|))[..len]
  }

  lemma IndexPrefix(b: bits, len: nat)
    requires |b| <= 16 && len <= 8
    ensures var x := IndexBits(b, len); if |b| <= len then b <= x else x <= b
  {
  }

  /** The entry that table `t` is read at, when the bits `b` are known. */
  function EntryFor(c: Code, ts: Tables, t: nat, b: bits): Oct
    requires Shaped(ts, t) && |b| <= 16
  {
    ts.tabs[t].oct[Val(IndexBits(b, ts.tabs[t].len))]
  }

  lemma WfEntryFor(c: Code, ts: Tables, t: nat, b: bits)
    requires Shaped(ts, t) && WfTable(c, ts, t) && |b| <= 16
    ensures WfEntry(c, ts, t, IndexBits(b, ts.tabs[t].len), EntryFor(c, ts, t, b))
  {
    hide IndexBits; hide WfEntry;
    OfVal(IndexBits(b, ts.tabs[t].len));
  }

  /** A hit that fits in the known bits: the symbol comes next. */
  lemma TakeHit(c: Code, ts: Tables, t: nat, b: bits)
    requires WfCode(c) && Shaped(ts, t) && WfTable(c, ts, t) && |b| <= 16
    requires var e := EntryFor(c, ts, t, b); e.nxt.None? && 0 < e.len <= |b|
    ensures var e := EntryFor(c, ts, t, b); Parse(c, ts.paths[t] + b) == Prepend([e.chr], Parse(c, b[e.len..]))
  {
    hide WfEntry; hide Parse; hide CodeOf; hide Pow2; hide Val; hide IndexBits; hide WfTable; hide EntryFor;
    assert |c.syms| == 256;
    hide WfCode;
    var p, e := ts.paths[t], EntryFor(c, ts, t, b);
    var i := HitOf(c, ts, t, b);
    ParseSym(c, i, p + b);
    DropPath(p, b, e.len);
  }

  lemma HitOf(c: Code, ts: Tables, t: nat, b: bits) returns (i: nat)
    requires Shaped(ts, t) && WfTable(c, ts, t) && |b| <= 16
    requires var e := EntryFor(c, ts, t, b); e.nxt.None? && 0 < e.len <= |b|
    ensures i < |c.syms| && CodeOf(c.syms[i]) <= ts.paths[t] + b
    ensures var e := EntryFor(c, ts, t, b); c.syms[i].len == |ts.paths[t]| + e.len && c.syms[i].chr == e.chr
  {
    var p, x, e := ts.paths[t], IndexBits(b, ts.tabs[t].len), EntryFor(c, ts, t, b);
    WfEntryFor(c, ts, t, b);
    i :| 0 <= i < |c.syms| && Hit(e, c.syms[i], p, x);
    IndexPrefix(b, |x|);
    hide WfTable; hide WfEntry; hide EntryFor; hide IndexBits;
    Extends(CodeOf(c.syms[i]), p, x, b);
  }

  lemma DropPath(p: bits, b: bits, n: nat)
    requires n <= |b|
    ensures (p + b)[|p| + n..] == b[n..]
  {
  }

  /** What is a prefix of one and no longer than the other is a prefix of both. */
  lemma Extends(y: bits, p: bits, x: bits, b: bits)
    requires y <= p + x && |p| <= |y| <= |p| + |b| && (b <= x || x <= b)
    ensures y <= p + b
  {
    var n := |y| - |p|;
    assert (p + x)[..|y|] == p + x[..n] && (p + b)[..|y|] == p + b[..n];
    assert x[..n] == b[..n];
  }

  lemma AllOnes(p: bits, x: bits, k: nat)
    requires p + x == Eos() && k < |x|
    ensures x[k]
  {
    assert (p + x)[|p| + k];
  }

  /** The end-of-string code is found only once its 30 bits are there. */
  lemma FoundEos(c: Code, ts: Tables, t: nat, b: bits)
    requires WfCode(c) && Shaped(ts, t) && WfTable(c, ts, t) && |b| <= 16
    requires EntryFor(c, ts, t, b).len == 0
    ensures Parse(c, ts.paths[t] + b) == Parsed([], [], true)
    ensures |b| >= ts.tabs[t].len
  {
    var p, x := ts.paths[t], IndexBits(b, ts.tabs[t].len);
    WfEntryFor(c, ts, t, b);
    IndexPrefix(b, |x|);
    if |b| < |x| {
      AllOnes(p, x, |b|);
    }
    assert Eos() <= p + b;
    ParseEos(c, p + b);
  }

  /** An entry that wants more bits than there are: the known ones are a proper prefix of what it stands for. */
  lemma Short(c: Code, ts: Tables, t: nat, b: bits)
    requires WfCode(c) && Shaped(ts, t) && WfTable(c, ts, t) && |b| < 8
    requires |b| < EntryFor(c, ts, t, b).len || |b| < ts.tabs[t].oct[0].len
    ensures var e, x := EntryFor(c, ts, t, b), IndexBits(b, ts.tabs[t].len);
            WfEntry(c, ts, t, x, e) && |b| < e.len <= ts.tabs[t].len && b <= x
  {
    var p, x, e := ts.paths[t], IndexBits(b, ts.tabs[t].len), EntryFor(c, ts, t, b);
    WfEntryFor(c, ts, t, b);
    IndexPrefix(b, |x|);
    if e.len == 0 {
      FoundEos(c, ts, t, b);
    }
  }

  lemma ShortOfLink(c: Code, w: bits, v: bits)
    requires w <= v && forall i :: 0 <= i < |c.syms| ==> !(CodeOf(c.syms[i]) <= v)
    ensures forall i :: 0 <= i < |c.syms| ==> !(CodeOf(c.syms[i]) <= w)
  {
    hide CodeOf;
    assert forall i :: 0 <= i < |c.syms| ==> CodeOf(c.syms[i]) <= w ==> CodeOf(c.syms[i]) <= v;
  }

  lemma ShortOfHit(c: Code, w: bits, v: bits, j: nat)
    requires WfCode(c) && w <= v && j < |c.syms| && CodeOf(c.syms[j]) <= v && |w| < c.syms[j].len
    ensures forall i :: 0 <= i < |c.syms| ==> !(CodeOf(c.syms[i]) <= w)
  {
    forall i | 0 <= i < |c.syms|
      ensures !(CodeOf(c.syms[i]) <= w)
    {
      if CodeOf(c.syms[i]) <= w { PrefixFree(c, i, j, v); }
    }
  }

  /** Then no code is complete, and EOS is not either. */
  lemma NeedsMore(c: Code, ts: Tables, t: nat, b: bits)
    requires WfCode(c) && WfTables(c, ts) && Shaped(ts, t) && WfTable(c, ts, t) && |b| < 8
    requires |b| < EntryFor(c, ts, t, b).len || |b| < ts.tabs[t].oct[0].len
    ensures Parse(c, ts.paths[t] + b) == Parsed([], ts.paths[t] + b, false)
  {
    hide Parse; hide CodeOf; hide Val; hide Pow2; hide IndexBits;
    Short(c, ts, t, b);
    var p, x, e := ts.paths[t], IndexBits(b, ts.tabs[t].len), EntryFor(c, ts, t, b);
    var w, v := p + b, p + x;
    assert w <= v && |w| < |p| + e.len;
    assert |Eos()| == 30;
    if e.nxt.Some? {
      assert Shaped(ts, e.nxt.value) && WfTable(c, ts, e.nxt.value);
      assert |v| <= 24;
      ShortOfLink(c, w, v);
    } else {
      var j :| 0 <= j < |c.syms| && Hit(e, c.syms[j], p, x);
      assert c.syms[j].len <= 30;
      ShortOfHit(c, w, v, j);
    }
    hide WfCode; hide WfTable; hide WfEntry; hide EntryFor;
    ParseStuck(c, w);
  }

  /** A link: the known bits go on in the table for the path they complete. */
  lemma TakeLink(c: Code, ts: Tables, t: nat, b: bits)
    requires Shaped(ts, t) && WfTable(c, ts, t) && |b| <= 16
    requires var e := EntryFor(c, ts, t, b); e.nxt.Some? && e.len <= |b|
    ensures var e := EntryFor(c, ts, t, b);
            && e.len == 8 && e.nxt.value < |ts.tabs|
            && ts.paths[e.nxt.value] != []
            && ts.paths[e.nxt.value] + b[8..] == ts.paths[t] + b
  {
    var x, e := IndexBits(b, ts.tabs[t].len), EntryFor(c, ts, t, b);
    WfEntryFor(c, ts, t, b);
    IndexPrefix(b, |x|);
    assert b == x + b[8..];
  }

  // ---- the state of the decoder inside a string ----

  /** The part of `struct hpack_str_state` that Huffman decoding uses; no table is the NULL of a string just started. */
  datatype HufState = HufState(dec: Option<nat>, bits: u16, blen: nat)

  const START: HufState := HufState(None, 0, 0)

  ghost predicate Windowed(ts: Tables, h: HufState) {
    && h.blen < 16 && Holds(h.bits, Window(h.bits, h.blen))
    && (match h.dec case None => h.blen == 0 case Some(t) => t < |ts.tabs| == |ts.paths|)
  }

  /** The path of the current table. */
  ghost function Path(ts: Tables, h: HufState): bits
    requires Windowed(ts, h)
  {
    if h.dec.Some? then ts.paths[h.dec.value] else []
  }

  /** The pending bits: those of the path, then those of the window. */
  ghost function Pend(ts: Tables, h: HufState): bits
    requires Windowed(ts, h)
  {
    Path(ts, h) + Window(h.bits, h.blen)
  }

  lemma StartWindowed(ts: Tables)
    ensures Windowed(ts, START) && Pend(ts, START) == []
  {
    HoldsNothing();
    HoldsWindow(0, []);
  }

  /** The NULL table stands for the first one. */
  lemma FirstTable(c: Code, ts: Tables, h: HufState)
    requires WfTables(c, ts) && Windowed(ts, h) && h.dec.None?
    ensures var g := h.(dec := Some(0)); Windowed(ts, g) && Pend(ts, g) == Pend(ts, h) && Path(ts, g) == []
  {
  }

  /** `l` bits are shifted out of the window, and the walk goes on with the table `t`. */
  function Consume(h: HufState, l: nat, t: nat): HufState
    requires l <= h.blen
  {
    assert Pow2(l) >= 1;
    HufState(Some(t), h.bits * Pow2(l) % 0x1_0000, h.blen - l)
  }

  lemma ConsumeWindow(ts: Tables, h: HufState, l: nat, t: nat)
    requires Windowed(ts, h) && l <= h.blen && t < |ts.tabs| == |ts.paths|
    ensures Windowed(ts, Consume(h, l, t))
    ensures Path(ts, Consume(h, l, t)) == ts.paths[t]
    ensures Pend(ts, Consume(h, l, t)) == ts.paths[t] + Window(h.bits, h.blen)[l..]
  {
    hide Holds; hide Window; hide Pow2;
    var w := Window(h.bits, h.blen);
    HoldsShift(h.bits, w, l);
    HoldsWindow(h.bits * Pow2(l) % 0x1_0000, w[l..]);
  }

  /** One more octet enters the window. */
  function Load(h: HufState, octet: byte): HufState
    requires h.blen < 8 && Or(h.bits, octet * Pow2(8 - h.blen)) < 0x1_0000
  {
    HufState(h.dec, Or(h.bits, octet * Pow2(8 - h.blen)), h.blen + 8)
  }

  lemma LoadWindow(ts: Tables, h: HufState, octet: byte)
    requires Windowed(ts, h) && h.blen < 8 && h.dec.Some?
    ensures Or(h.bits, octet * Pow2(8 - h.blen)) < 0x1_0000
    ensures Windowed(ts, Load(h, octet)) && Pend(ts, Load(h, octet)) == Pend(ts, h) + Of(octet, 8)
  {
    hide Holds; hide Window; hide Or; hide Of;
    var w := Window(h.bits, h.blen);
    var x := Or(h.bits, octet * Pow2(8 - h.blen));
    HoldsMore(h.bits, w, octet);
    HoldsBound(x, w + Of(octet, 8));
    HoldsWindow(x, w + Of(octet, 8));
    assert Path(ts, h) + (w + Of(octet, 8)) == Path(ts, h) + w + Of(octet, 8);
  }

  /** The tests made at the end of a string are the test of padding. */
  lemma PaddingTest(c: Code, ts: Tables, h: HufState)
    requires WfTables(c, ts) && Windowed(ts, h) && h.dec.Some? && h.blen < 8
    ensures Path(ts, h) == [] ==> |Pend(ts, h)| < 8
    ensures Padding(Pend(ts, h))
       <==> Path(ts, h) == [] && (h.blen > 0 ==> h.bits == 0xffff * Pow2(16 - h.blen) % 0x1_0000)
  {
    assert Shaped(ts, h.dec.value);
    var w := Window(h.bits, h.blen);
    HoldsPadding(h.bits, w);
    assert [] + w == w;
    hide Holds; hide Window; hide WfTable; hide Pow2;
    if h.blen == 0 { assert w == [] == Ones(0); }
  }

  // ---- one table entry ----

  /** What one table entry leads to. */
  datatype Look = Taken(h: HufState, out: seq<byte>) | Wait | Premature

  /** What the entry `e` makes of the window. */
  function UseEntry(e: Oct, h: HufState): Look {
    if e.len == 0 then Premature
    else if h.blen < e.len then Wait
    else match e.nxt
      case None => Taken(Consume(h, e.len, 0), [e.chr])
      case Some(t) => Taken(Consume(h, e.len, t), [])
  }

  /** The body of the loop of hph_decode_lookup, apart from the writing of the symbol. */
  function Look1(ts: Tables, h: HufState): Look
    requires h.dec.Some? && h.dec.value < |ts.tabs|
    requires var d := ts.tabs[h.dec.value]; d.len <= 8 && h.bits / Pow2(16 - d.len) % 256 < |d.oct|
  {
    var d := ts.tabs[h.dec.value];
    UseEntry(d.oct[h.bits / Pow2(16 - d.len) % 256], h)
  }

  /** One entry, against the reading of the bits. */
  ghost predicate Follows(c: Code, ts: Tables, h: HufState, step: Look)
    requires Windowed(ts, h)
  {
    match step
    case Premature => Parse(c, Pend(ts, h)) == Parsed([], [], true)
    case Wait => h.blen < 8 && Parse(c, Pend(ts, h)) == Parsed([], Pend(ts, h), false)
    case Taken(g, s) =>
      && Windowed(ts, g) && g.dec.Some? && g.blen < h.blen
      && Parse(c, Pend(ts, h)) == Prepend(s, Parse(c, Pend(ts, g)))
      && (s == [] <==> Path(ts, g) != [])
  }

  lemma SelectedEntry(c: Code, ts: Tables, h: HufState)
    requires WfTables(c, ts) && Windowed(ts, h) && h.dec.Some?
    ensures var d := ts.tabs[h.dec.value]; d.len <= 8 && h.bits / Pow2(16 - d.len) % 256 < |d.oct|
    ensures Shaped(ts, h.dec.value) && WfTable(c, ts, h.dec.value)
    ensures var e := EntryFor(c, ts, h.dec.value, Window(h.bits, h.blen)); e.len <= 8 && Look1(ts, h) == UseEntry(e, h)
  {
    var t, w := h.dec.value, Window(h.bits, h.blen);
    assert Shaped(ts, t) && WfTable(c, ts, t);
    WfEntryFor(c, ts, t, w);
    HoldsIndex(h.bits, w, ts.tabs[t].len);
    hide Window; hide UseEntry; hide WfEntry;
  }

  /** The walk over the tables follows the reading of the bits, entry by entry. */
  lemma Look1Parse(c: Code, ts: Tables, h: HufState)
    requires WfCode(c) && WfTables(c, ts) && Windowed(ts, h) && h.dec.Some?
    ensures var d := ts.tabs[h.dec.value]; d.len <= 8 && h.bits / Pow2(16 - d.len) % 256 < |d.oct|
    ensures Follows(c, ts, h, Look1(ts, h))
  {
    var t, w := h.dec.value, Window(h.bits, h.blen);
    SelectedEntry(c, ts, h);
    var e := EntryFor(c, ts, t, w);
    assert ts.paths[0] == [] && |ts.tabs| == |ts.paths| > 0;
    hide WfCode; hide WfTable; hide Parse; hide Window; hide Holds; hide EntryFor; hide Consume; hide Pow2; hide Look1;
    if e.len == 0 {
      FoundEos(c, ts, t, w);
    } else if h.blen < e.len {
      NeedsMore(c, ts, t, w);
    } else if e.nxt.None? {
      TakeHit(c, ts, t, w);
      ConsumeWindow(ts, h, e.len, 0);
      assert [] + w[e.len..] == w[e.len..];
    } else {
      TakeLink(c, ts, t, w);
      ConsumeWindow(ts, h, e.len, e.nxt.value);
      PrependTwice([], [], Parse(c, Pend(ts, h)));
    }
  }

  /** With fewer bits than the shortest entry, the loop stops: no code is complete. */
  lemma TooShort(c: Code, ts: Tables, h: HufState)
    requires WfCode(c) && WfTables(c, ts) && Windowed(ts, h) && h.dec.Some?
    ensures Shaped(ts, h.dec.value) && WfTable(c, ts, h.dec.value)
    ensures h.blen < ts.tabs[h.dec.value].oct[0].len ==>
              h.blen < 8 && Parse(c, Pend(ts, h)) == Parsed([], Pend(ts, h), false)
  {
    var t, w := h.dec.value, Window(h.bits, h.blen);
    assert Shaped(ts, t) && WfTable(c, ts, t);
    if h.blen < ts.tabs[t].oct[0].len {
      NeedsMore(c, ts, t, w);
    }
  }
}

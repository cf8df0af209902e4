/** The blocks of two connections, with any fields of the same sizes and with either coding of their strings. */
module BlockPatterns {
  import opened Common
  import opened Validate
  import opened HuffmanCode
  import opened TableSpec
  import opened DecoderSpec
  import opened DecoderBlock
  import opened EncoderSpec
  import opened BlockExamples

  // ---- the sizes of tables ----

  lemma TotalIs(es: seq<Entry>)
    ensures es == [] ==> Total(es) == 0
    ensures |es| == 1 ==> Total(es) == EntrySize(es[0])
    ensures |es| == 2 ==> Total(es) == EntrySize(es[0]) + EntrySize(es[1])
    ensures |es| == 3 ==> Total(es) == EntrySize(es[0]) + EntrySize(es[1]) + EntrySize(es[2])
  {
    hide EntrySize;
    if es != [] { TotalIs(es[1..]); }
  }

  lemma NoneGoes(es: seq<Entry>, n: nat, lim: nat)
    requires |es| <= 3 && Total(es) + n <= lim
    ensures Makes(es, 0, n, lim) && es[..|es| - 0] == es
  {
    assert es[..|es|] == es;
  }

  lemma OneGoes(a: seq<Entry>, x: Entry, n: nat, lim: nat)
    requires Total(a) + n <= lim < Total(a) + EntrySize(x) + n
    ensures var es := a + [x]; Makes(es, 1, n, lim) && es[..|es| - 1] == a
  {
    var es := a + [x];
    TotalLast(es);
    assert es[..|es| - 1] == a && es[..|es|] == es;
  }

  lemma TwoGo(a: seq<Entry>, x: Entry, y: Entry, n: nat, lim: nat)
    requires Total(a) + n <= lim < Total(a) + EntrySize(x) + n
    ensures var es := a + [x, y]; Makes(es, 2, n, lim) && es[..|es| - 2] == a
  {
    var b := a + [x];
    var es := a + [x, y];
    TotalLast(b);
    assert es[..|es| - 2] == a && es[..|es| - 1] == b && b[..|b| - 1] == a;
  }

  // ---- what is written and sent ----

  function Sent(v: u16, e: Entry): seq<Event> {
    [FieldEvt(v), NameEvt(e.nam), ValueEvt(e.val)]
  }

  function Entered(e: Entry, gone: nat): seq<Event> {
    Entering(e.nam, e.val, gone)
  }

  function Named(j: u16, huf: bool, s: seq<byte>): Instr {
    Lit(Dyn, ByIndex(j), Str(huf, s))
  }

  function NamedOctets(j: u16, huf: bool, o: seq<byte>): (w: seq<byte>)
    requires j < 63 && |o| < 127
    ensures |w| == 2 + |o|
  {
    [0x40 + j, HBit(huf) + |o|] + o
  }

  ghost predicate Fixed(env: Env, v: u16, e: Entry) {
    Static(env, v, e.nam, e.val)
  }

  /** One of these entries, a new value of its name, and how it is written. */
  ghost predicate Given(env: Env, j: u16, was: seq<byte>, e: Entry, huf: bool, o: seq<byte>) {
    && WfEnv(env) && Static(env, j, e.nam, was) && Coded(env.code, huf, e.val, o) && |e.nam| + |e.val| <= 166 && |o| < 127 && j < 63
  }

  /** A literal field that enters the table, where the last `gone` entries make room for it. */
  lemma Enters(env: Env, d0: Dec, max: u16, es: seq<Entry>, t: Trip, j: u16, was: seq<byte>, e: Entry, huf: bool, o: seq<byte>,
               a: seq<Entry>)
    returns (r: Trip)
    requires On(env, d0, max, es, t) && |t.l| < 20 && Given(env, j, was, e, huf, o) && 198 <= max
    requires |a| <= |es| && Makes(es, |es| - |a|, EntrySize(e), max) && a == es[..|a|]
    ensures On(env, d0, max, [e] + a, r) && r.l == t.l + [Named(j, huf, e.val)] && r.w == t.w + NamedOctets(j, huf, o)
    ensures r.evs == t.evs + Entered(e, |es| - |a|)
  {
    hide On; hide Coded; hide Static; hide Makes; hide WfEnv; hide WfCode; hide HBit; hide Entering;
    r := EnterField(env, d0, max, es, t, j, e.nam, was, huf, e.val, o, |es| - |a|);
  }

  function NewNamed(huf: bool, e: Entry): Instr {
    Lit(Dyn, ByName(Str(huf, e.nam)), Str(huf, e.val))
  }

  function NewOctets(huf: bool, m: seq<byte>, o: seq<byte>): (w: seq<byte>)
    requires |m| < 127 && |o| < 127
    ensures |w| == 3 + |m| + |o|
  {
    [0x40, HBit(huf) + |m|] + m + [HBit(huf) + |o|] + o
  }

  /** A new field, and how its name and its value are written. */
  ghost predicate NewGiven(env: Env, e: Entry, huf: bool, m: seq<byte>, o: seq<byte>) {
    && WfEnv(env) && Coded(env.code, huf, e.nam, m) && Coded(env.code, huf, e.val, o) && |e.nam| + |e.val| <= 166
    && |m| < 127 && |o| < 127 && e.nam != [] && Token(e.nam) == OK
  }

  lemma EntersNew(env: Env, d0: Dec, max: u16, es: seq<Entry>, t: Trip, e: Entry, huf: bool, m: seq<byte>, o: seq<byte>)
    returns (r: Trip)
    requires On(env, d0, max, es, t) && |t.l| < 20 && NewGiven(env, e, huf, m, o) && 198 <= max && Makes(es, 0, EntrySize(e), max)
    ensures On(env, d0, max, [e] + es, r) && r.l == t.l + [NewNamed(huf, e)] && r.w == t.w + NewOctets(huf, m, o)
    ensures r.evs == t.evs + Entered(e, 0)
  {
    hide On; hide Coded; hide Makes; hide WfEnv; hide WfCode; hide HBit; hide Entering; hide Token;
    r := EnterNew(env, d0, max, es, t, huf, e.nam, m, e.val, o);
  }

  predicate Small(e: Entry) {
    |e.nam| + |e.val| <= 166
  }

  // ---- the blocks ----

  lemma Request1(env: Env, d: Dec, get: Entry, http: Entry, root: Entry, host: Entry, huf: bool, o: seq<byte>)
    returns (d': Dec)
    requires Fixed(env, 2, get) && Fixed(env, 6, http) && Fixed(env, 4, root) && Given(env, 1, [], host, huf, o)
    requires Idle(d, 4096, []) && EntrySize(host) == 57
    ensures Example(env, d, 4096,
                    [Idx(2), Idx(6), Idx(4), Named(1, huf, host.val)],
                    [0x82] + [0x86] + [0x84] + NamedOctets(1, huf, o),
                    Sent(2, get) + Sent(6, http) + Sent(4, root) + Entered(host, 0),
                    [host], d')
  {
    hide On; hide Static; hide Makes; hide Idle; hide Example; hide WfEnv; hide WfCode; hide Total; hide HBit; hide EntrySize;
    hide Entered; hide NamedOctets; hide NewOctets; hide Coded;
    var d0 := Start(d, BUFFER);
    var t := Begins(env, d, 4096, []);
    t := FixedField(env, d0, 4096, [], t, 2, get.nam, get.val);
    t := FixedField(env, d0, 4096, [], t, 6, http.nam, http.val);
    t := FixedField(env, d0, 4096, [], t, 4, root.nam, root.val);
    TotalIs([]);
    NoneGoes([], 57, 4096);
    t := Enters(env, d0, 4096, [], t, 1, [], host, huf, o, []);
    assert [host] + [] == [host];
    assert t.l == [Idx(2), Idx(6), Idx(4), Named(1, huf, host.val)];
    assert t.w == [0x82] + [0x86] + [0x84] + NamedOctets(1, huf, o);
    assert t.evs == Sent(2, get) + Sent(6, http) + Sent(4, root) + Entered(host, 0);
    Ends(env, d, 4096, [host], t);
    d' := t.d;
  }

  lemma Request2(env: Env, d: Dec, get: Entry, http: Entry, root: Entry, host: Entry, cache: Entry, huf: bool, o: seq<byte>)
    returns (d': Dec)
    requires Fixed(env, 2, get) && Fixed(env, 6, http) && Fixed(env, 4, root) && Given(env, 24, [], cache, huf, o) && Small(host)
    requires Idle(d, 4096, [host]) && EntrySize(host) == 57 && EntrySize(cache) == 53
    ensures Example(env, d, 4096,
                    [Idx(2), Idx(6), Idx(4), Idx(62), Named(24, huf, cache.val)],
                    [0x82] + [0x86] + [0x84] + [0xbe] + NamedOctets(24, huf, o),
                    Sent(2, get) + Sent(6, http) + Sent(4, root) + Sent(62, host) + Entered(cache, 0),
                    [cache, host], d')
  {
    hide On; hide Static; hide Makes; hide Idle; hide Example; hide WfEnv; hide WfCode; hide Total; hide HBit; hide EntrySize;
    hide Entered; hide NamedOctets; hide NewOctets; hide Coded;
    var d0 := Start(d, BUFFER);
    var t := Begins(env, d, 4096, [host]);
    t := FixedField(env, d0, 4096, [host], t, 2, get.nam, get.val);
    t := FixedField(env, d0, 4096, [host], t, 6, http.nam, http.val);
    t := FixedField(env, d0, 4096, [host], t, 4, root.nam, root.val);
    t := RecentField(env, d0, 4096, [host], t, 0);
    TotalIs([host]);
    NoneGoes([host], 53, 4096);
    t := Enters(env, d0, 4096, [host], t, 24, [], cache, huf, o, [host]);
    assert [cache] + [host] == [cache, host];
    assert t.l == [Idx(2), Idx(6), Idx(4), Idx(62), Named(24, huf, cache.val)];
    assert t.w == [0x82] + [0x86] + [0x84] + [0xbe] + NamedOctets(24, huf, o);
    assert t.evs == Sent(2, get) + Sent(6, http) + Sent(4, root) + Sent(62, host) + Entered(cache, 0);
    Ends(env, d, 4096, [cache, host], t);
    d' := t.d;
  }

  lemma Request3(env: Env, d: Dec, get: Entry, https: Entry, page: Entry, cache: Entry, host: Entry, more: Entry, huf: bool,
                 m: seq<byte>, o: seq<byte>)
    returns (d': Dec)
    requires Fixed(env, 2, get) && Fixed(env, 7, https) && Fixed(env, 5, page) && NewGiven(env, more, huf, m, o) && Small(host)
    requires Idle(d, 4096, [cache, host]) && EntrySize(cache) == 53 && EntrySize(host) == 57 && EntrySize(more) == 54
    ensures Example(env, d, 4096,
                    [Idx(2), Idx(7), Idx(5), Idx(63), NewNamed(huf, more)],
                    [0x82] + [0x87] + [0x85] + [0xbf] + NewOctets(huf, m, o),
                    Sent(2, get) + Sent(7, https) + Sent(5, page) + Sent(63, host) + Entered(more, 0),
                    [more, cache, host], d')
  {
    hide On; hide Static; hide Makes; hide Idle; hide Example; hide WfEnv; hide WfCode; hide Total; hide HBit; hide EntrySize;
    hide Entered; hide NamedOctets; hide NewOctets; hide Coded;
    var d0 := Start(d, BUFFER);
    var t := Begins(env, d, 4096, [cache, host]);
    t := FixedField(env, d0, 4096, [cache, host], t, 2, get.nam, get.val);
    t := FixedField(env, d0, 4096, [cache, host], t, 7, https.nam, https.val);
    t := FixedField(env, d0, 4096, [cache, host], t, 5, page.nam, page.val);
    t := RecentField(env, d0, 4096, [cache, host], t, 1);
    TotalIs([cache, host]);
    NoneGoes([cache, host], 54, 4096);
    t := EntersNew(env, d0, 4096, [cache, host], t, more, huf, m, o);
    assert [more] + [cache, host] == [more, cache, host];
    assert t.l == [Idx(2), Idx(7), Idx(5), Idx(63), NewNamed(huf, more)];
    assert t.w == [0x82] + [0x87] + [0x85] + [0xbf] + NewOctets(huf, m, o);
    assert t.evs == Sent(2, get) + Sent(7, https) + Sent(5, page) + Sent(63, host) + Entered(more, 0);
    Ends(env, d, 4096, [more, cache, host], t);
    d' := t.d;
  }

  lemma Response1(env: Env, d: Dec, ok: seq<byte>, s: Entry, c: Entry, t1: Entry, l: Entry, huf: bool, o1: seq<byte>, o2: seq<byte>,
                  o3: seq<byte>, o4: seq<byte>)
    returns (d': Dec)
    requires Given(env, 8, ok, s, huf, o1) && Given(env, 24, [], c, huf, o2) && Given(env, 33, [], t1, huf, o3)
    requires Given(env, 46, [], l, huf, o4)
    requires Idle(d, 256, []) && EntrySize(s) == 42 && EntrySize(c) == 52 && EntrySize(t1) == 65 && EntrySize(l) == 63
    ensures Example(env, d, 256,
                    [Named(8, huf, s.val), Named(24, huf, c.val), Named(33, huf, t1.val), Named(46, huf, l.val)],
                    NamedOctets(8, huf, o1) + NamedOctets(24, huf, o2) + NamedOctets(33, huf, o3) + NamedOctets(46, huf, o4),
                    Entered(s, 0) + Entered(c, 0) + Entered(t1, 0) + Entered(l, 0),
                    [l, t1, c, s], d')
  {
    hide On; hide Static; hide Makes; hide Idle; hide Example; hide WfEnv; hide WfCode; hide Total; hide HBit; hide EntrySize;
    hide Entered; hide NamedOctets; hide NewOctets; hide Coded;
    var d0 := Start(d, BUFFER);
    var t := Begins(env, d, 256, []);
    TotalIs([]);
    NoneGoes([], 42, 256);
    t := Enters(env, d0, 256, [], t, 8, ok, s, huf, o1, []);
    assert [s] + [] == [s];
    TotalIs([s]);
    NoneGoes([s], 52, 256);
    t := Enters(env, d0, 256, [s], t, 24, [], c, huf, o2, [s]);
    assert [c] + [s] == [c, s];
    TotalIs([c, s]);
    NoneGoes([c, s], 65, 256);
    t := Enters(env, d0, 256, [c, s], t, 33, [], t1, huf, o3, [c, s]);
    assert [t1] + [c, s] == [t1, c, s];
    TotalIs([t1, c, s]);
    NoneGoes([t1, c, s], 63, 256);
    t := Enters(env, d0, 256, [t1, c, s], t, 46, [], l, huf, o4, [t1, c, s]);
    assert [l] + [t1, c, s] == [l, t1, c, s];
    assert t.l == [Named(8, huf, s.val), Named(24, huf, c.val), Named(33, huf, t1.val), Named(46, huf, l.val)];
    assert t.w == NamedOctets(8, huf, o1) + NamedOctets(24, huf, o2) + NamedOctets(33, huf, o3) + NamedOctets(46, huf, o4);
    assert t.evs == Entered(s, 0) + Entered(c, 0) + Entered(t1, 0) + Entered(l, 0);
    Ends(env, d, 256, [l, t1, c, s], t);
    d' := t.d;
  }

  lemma Response2(env: Env, d: Dec, ok: seq<byte>, s2: Entry, l: Entry, t1: Entry, c: Entry, s: Entry, huf: bool, o: seq<byte>)
    returns (d': Dec)
    requires Given(env, 8, ok, s2, huf, o) && Small(c) && Small(t1) && Small(l)
    requires Idle(d, 256, [l, t1, c, s]) && EntrySize(s) == EntrySize(s2) == 42
    requires EntrySize(c) == 52 && EntrySize(t1) == 65 && EntrySize(l) == 63
    ensures Example(env, d, 256,
                    [Named(8, huf, s2.val), Idx(65), Idx(64), Idx(63)],
                    NamedOctets(8, huf, o) + [0xc1] + [0xc0] + [0xbf],
                    Entered(s2, 1) + Sent(65, c) + Sent(64, t1) + Sent(63, l),
                    [s2, l, t1, c], d')
  {
    hide On; hide Static; hide Makes; hide Idle; hide Example; hide WfEnv; hide WfCode; hide Total; hide HBit; hide EntrySize;
    hide Entered; hide NamedOctets; hide NewOctets; hide Coded;
    var d0 := Start(d, BUFFER);
    var t := Begins(env, d, 256, [l, t1, c, s]);
    TotalIs([l, t1, c]);
    OneGoes([l, t1, c], s, 42, 256);
    assert [l, t1, c] + [s] == [l, t1, c, s];
    t := Enters(env, d0, 256, [l, t1, c, s], t, 8, ok, s2, huf, o, [l, t1, c]);
    assert [s2] + [l, t1, c] == [s2, l, t1, c];
    t := RecentField(env, d0, 256, [s2, l, t1, c], t, 3);
    t := RecentField(env, d0, 256, [s2, l, t1, c], t, 2);
    t := RecentField(env, d0, 256, [s2, l, t1, c], t, 1);
    assert t.l == [Named(8, huf, s2.val), Idx(65), Idx(64), Idx(63)];
    assert t.w == NamedOctets(8, huf, o) + [0xc1] + [0xc0] + [0xbf];
    assert t.evs == Entered(s2, 1) + Sent(65, c) + Sent(64, t1) + Sent(63, l);
    Ends(env, d, 256, [s2, l, t1, c], t);
    d' := t.d;
  }

  lemma Response3(env: Env, d: Dec, ok: Entry, s2: Entry, l: Entry, t1: Entry, c: Entry, t2: Entry, g: Entry, k: Entry, huf: bool,
                  o1: seq<byte>, o2: seq<byte>, o3: seq<byte>)
    returns (d': Dec)
    requires Fixed(env, 8, ok) && Given(env, 33, [], t2, huf, o1) && Given(env, 26, [], g, huf, o2)
    requires Given(env, 55, [], k, huf, o3) && Small(c) && Small(l)
    requires Idle(d, 256, [s2, l, t1, c]) && EntrySize(s2) == 42 && EntrySize(c) == 52
    requires EntrySize(t1) == EntrySize(t2) == 65 && EntrySize(l) == 63
    requires EntrySize(g) == 52 && EntrySize(k) == 98
    ensures Example(env, d, 256,
                    [Idx(8), Idx(65), Named(33, huf, t2.val), Idx(64), Named(26, huf, g.val), Named(55, huf, k.val)],
                    [0x88] + [0xc1] + NamedOctets(33, huf, o1) + [0xc0] + NamedOctets(26, huf, o2) + NamedOctets(55, huf, o3),
                    Sent(8, ok) + Sent(65, c) + Entered(t2, 1) + Sent(64, l) + Entered(g, 1) + Entered(k, 2),
                    [k, g, t2], d')
  {
    hide On; hide Static; hide Makes; hide Idle; hide Example; hide WfEnv; hide WfCode; hide Total; hide HBit; hide EntrySize;
    hide Entered; hide NamedOctets; hide NewOctets; hide Coded;
    var d0 := Start(d, BUFFER);
    var t := Begins(env, d, 256, [s2, l, t1, c]);
    t := FixedField(env, d0, 256, [s2, l, t1, c], t, 8, ok.nam, ok.val);
    t := RecentField(env, d0, 256, [s2, l, t1, c], t, 3);
    TotalIs([s2, l, t1]);
    OneGoes([s2, l, t1], c, 65, 256);
    assert [s2, l, t1] + [c] == [s2, l, t1, c];
    t := Enters(env, d0, 256, [s2, l, t1, c], t, 33, [], t2, huf, o1, [s2, l, t1]);
    assert [t2] + [s2, l, t1] == [t2, s2, l, t1];
    t := RecentField(env, d0, 256, [t2, s2, l, t1], t, 2);
    TotalIs([t2, s2, l]);
    OneGoes([t2, s2, l], t1, 52, 256);
    assert [t2, s2, l] + [t1] == [t2, s2, l, t1];
    t := Enters(env, d0, 256, [t2, s2, l, t1], t, 26, [], g, huf, o2, [t2, s2, l]);
    assert [g] + [t2, s2, l] == [g, t2, s2, l];
    TotalIs([g, t2]);
    TwoGo([g, t2], s2, l, 98, 256);
    assert [g, t2] + [s2, l] == [g, t2, s2, l];
    t := Enters(env, d0, 256, [g, t2, s2, l], t, 55, [], k, huf, o3, [g, t2]);
    assert [k] + [g, t2] == [k, g, t2];
    assert t.l == [Idx(8), Idx(65), Named(33, huf, t2.val), Idx(64), Named(26, huf, g.val), Named(55, huf, k.val)];
    assert t.w == [0x88] + [0xc1] + NamedOctets(33, huf, o1) + [0xc0] + NamedOctets(26, huf, o2) + NamedOctets(55, huf, o3);
    assert t.evs == Sent(8, ok) + Sent(65, c) + Entered(t2, 1) + Sent(64, l) + Entered(g, 1) + Entered(k, 2);
    Ends(env, d, 256, [k, g, t2], t);
    d' := t.d;
  }
}
